/**
 * The recovery side of the event publisher: one stamp counter for all connections, and per connection an
 * open recovery, the last completed one and an outbox. Every method takes the run step it names on the
 * connections it targets and leaves every other connection's lane alone.
 */
module RecoveryPublisher {
  import opened Options
  import opened ProjectionPublisher
  import opened RecoveryLane

  class Publisher {
    const enc: Encoder
    var seqNo: nat
    var recoveries: map<Conn, Recovery>
    var completed: map<Conn, string>
    var outbox: map<Conn, seq<Frame>>
    // What was targeted at each connection since its last recovery began, and the stamp it began at.
    ghost var held: map<Conn, seq<Event>>
    ghost var since: map<Conn, nat>

    function LaneOf(conn: Conn): Lane
      reads this`recoveries, this`completed, this`outbox
    {
      Lane(Lookup(recoveries, conn), Lookup(completed, conn), GetOr(outbox, conn, []))
    }

    ghost function WorldOf(conn: Conn): World
      reads this
    {
      World(LaneOf(conn), seqNo, GetOr(held, conn, []), GetOr(since, conn, 0))
    }

    constructor (enc: Encoder)
      ensures this.enc == enc
      ensures forall c :: WorldOf(c) == World(EMPTY_LANE, 0, [], 0)
    {
      this.enc := enc;
      seqNo, recoveries, completed, outbox, held, since := 0, map[], map[], map[], map[], map[];
    }

    /** Puts the events in the connection's queue in order, until one is refused. */
    method Enqueue(conn: Conn, events: seq<Event>, room: nat)
      modifies this`outbox
      ensures outbox == old(outbox)[conn := GetOr(old(outbox), conn, []) + EventFrames(Accepted(events, room))]
    {
      var frames := GetOr(outbox, conn, []);
      var i := 0;
      while i < |events| && i < room
        invariant i <= |events| && i <= room
        invariant frames == GetOr(old(outbox), conn, []) + EventFrames(events[..i])
      {
        frames := frames + [EventFrame(events[i])];
        assert EventFrames(events[..i + 1]) == EventFrames(events[..i]) + [EventFrame(events[i])];
        i := i + 1;
      }
      assert events[..i] == Accepted(events, room);
      outbox := outbox[conn := frames];
    }

    /** One turn of the delivery loop of publish. */
    method DeliverTo(conn: Conn, e: Event, now: int, room: nat)
      modifies this`recoveries, this`outbox
      ensures forall c :: LaneOf(c) == if c == conn then Deliver(old(LaneOf(c)), e, now, room, enc) else old(LaneOf(c))
    {
      if conn in recoveries {
        var r := recoveries[conn];
        if now - r.startedAt >= PENDING_TIMEOUT || |r.pending| + 1 > PENDING_MAX_EVENTS
           || r.pendingBytes + enc(e) > PENDING_MAX_BYTES {
          recoveries := recoveries - {conn};
          Enqueue(conn, r.pending + [e], room);
        } else {
          recoveries := recoveries[conn := r.(pending := r.pending + [e], pendingBytes := r.pendingBytes + enc(e))];
        }
      } else {
        Enqueue(conn, [e], room);
      }
    }

    /** The delivery loop of publish: every eligible target takes the event, the other lanes keep still. */
    method DeliverAll(e: Event, targets: set<Conn>, eligible: set<Conn>, now: int, room: map<Conn, nat>)
      modifies this`recoveries, this`outbox
      ensures forall c ::
        LaneOf(c) ==
          if c in targets && c in eligible then Deliver(old(LaneOf(c)), e, now, GetOr(room, c, 0), enc)
          else old(LaneOf(c))
    {
      var rest := targets;
      while rest != {}
        invariant rest <= targets
        invariant forall c ::
          LaneOf(c) ==
            if c in targets - rest && c in eligible then Deliver(old(LaneOf(c)), e, now, GetOr(room, c, 0), enc)
            else old(LaneOf(c))
        decreases rest
      {
        var conn :| conn in rest;
        if conn in eligible {
          DeliverTo(conn, e, now, GetOr(room, conn, 0));
        }
        rest := rest - {conn};
      }
    }

    /** Stamps the event with the next sequence number and delivers it to every eligible target. */
    method Publish(backendId: string, sessionId: string, name: string, data: string,
                   targets: set<Conn>, eligible: set<Conn>, now: int, room: map<Conn, nat>)
      modifies this
      ensures seqNo == old(seqNo) + 1
      ensures forall c ::
        WorldOf(c) ==
          Pass(old(WorldOf(c)), Event(seqNo, backendId, sessionId, name, data), c in targets && c in eligible, now,
               GetOr(room, c, 0), enc)
    {
      seqNo := seqNo + 1;
      var e := Event(seqNo, backendId, sessionId, name, data);
      DeliverAll(e, targets, eligible, now, room);
      held := map c | c in held.Keys + targets ::
          GetOr(held, c, []) + if c in targets && c in eligible then [e] else [];
    }

    /** Opens a recovery, freezing the cuts given; the answer is the stamp at which live delivery stopped. */
    method BeginRecovery(conn: Conn, recoveryId: string, now: int, cuts: Option<CutMap>) returns (admitted: Option<nat>)
      modifies this
      ensures seqNo == old(seqNo)
      ensures admitted == if recoveryId == "" || conn in old(recoveries) then None else Some(old(seqNo))
      ensures forall c ::
                WorldOf(c) == if c == conn then Next(old(WorldOf(c)), Begin(recoveryId, now, cuts), enc)
                else old(WorldOf(c))
    {
      if recoveryId == "" || conn in recoveries {
        return None;
      }
      recoveries := recoveries[conn := Recovery(recoveryId, [], 0, now, cuts)];
      held, since := held[conn := []], since[conn := seqNo];
      admitted := Some(seqNo);
    }

    /** The held events a completion still owes, in order. */
    method CollectOwed(r: Recovery) returns (owed: seq<Event>)
      ensures owed == OwedEvents(r.cuts, r.pending)
    {
      owed := [];
      for i := 0 to |r.pending|
        invariant owed == OwedEvents(r.cuts, r.pending[..i])
      {
        var cut := LookupCut(r.cuts, r.pending[i].backendId, r.pending[i].sessionId);
        assert r.pending[..i + 1][..i] == r.pending[..i];
        if cut.None? || r.pending[i].seqNo > cut.value.seqNo {
          owed := owed + [r.pending[i]];
        }
      }
      assert r.pending[..|r.pending|] == r.pending;
    }

    /** The marker, then every owed event; the recovery is over. */
    method SendCompletion(conn: Conn, recoveryId: string, owed: seq<Event>)
      modifies this`recoveries, this`completed, this`outbox
      ensures forall c ::
        LaneOf(c) ==
          if c == conn then
            Lane(None, Some(recoveryId), old(LaneOf(c)).frames + [CompleteFrame(recoveryId)] + EventFrames(owed))
          else old(LaneOf(c))
    {
      outbox := outbox[conn := GetOr(outbox, conn, []) + [CompleteFrame(recoveryId)]];
      Enqueue(conn, owed, |owed|);
      recoveries := recoveries - {conn};
      completed := completed[conn := recoveryId];
    }

    /** The marker and every owed event go out together or not at all. */
    method CompleteRecovery(conn: Conn, recoveryId: string, applied: Option<CutMap>, room: nat)
      returns (outcome: RecoveryLane.CompleteOutcome)
      modifies this`recoveries, this`completed, this`outbox
      ensures outcome == CompleteOutcomeOf(old(LaneOf(conn)), recoveryId, applied, room)
      ensures forall c ::
        LaneOf(c) == if c == conn then CompleteLane(old(LaneOf(c)), recoveryId, applied, room) else old(LaneOf(c))
    {
      if conn !in recoveries || recoveries[conn].recoveryId != recoveryId {
        return NotThisRecovery;
      }
      var r := recoveries[conn];
      if r.cuts.Some? && (applied.None? || !SameCuts(r.cuts.value, applied.value)) {
        recoveries := recoveries - {conn};
        completed := completed[conn := recoveryId];
        return CutMismatch;
      }
      var owed := CollectOwed(r);
      if room < 1 + |owed| {
        recoveries := recoveries - {conn};
        return RecoveryLane.NoRoom;
      }
      SendCompletion(conn, recoveryId, owed);
      return RecoveryLane.Completed;
    }

    /** Sends a frame behind what is queued, an event of a replay too, unless the queue stays full. */
    method EnqueueControl(conn: Conn, frame: Frame, accepted: bool)
      modifies this`outbox
      ensures forall c ::
        WorldOf(c) == if c == conn && accepted then Next(old(WorldOf(c)), Control(frame), enc) else old(WorldOf(c))
    {
      if accepted {
        outbox := outbox[conn := GetOr(outbox, conn, []) + [frame]];
      }
    }

    method FailRecovery(conn: Conn, recoveryId: string)
      modifies this
      ensures seqNo == old(seqNo)
      ensures forall c ::
                WorldOf(c) == if c == conn then Next(old(WorldOf(c)), Fail(recoveryId), enc) else old(WorldOf(c))
    {
      if conn in recoveries && recoveries[conn].recoveryId == recoveryId {
        recoveries := recoveries - {conn};
      }
    }

    /** Moves the session's cut up to the newest stamped event of the session, if any is still buffered. */
    method FreezeRecoverySnapshot(conn: Conn, recoveryId: string, backendId: string, sessionId: string,
                                  latest: Option<Cut>)
      returns (outcome: FreezeOutcome)
      modifies this
      ensures seqNo == old(seqNo)
      ensures outcome == FreezeOutcomeOf(old(LaneOf(conn)), recoveryId, backendId, sessionId, latest)
      ensures forall c ::
        WorldOf(c) == if c == conn then Next(old(WorldOf(c)), Freeze(recoveryId, backendId, sessionId, latest), enc)
        else old(WorldOf(c))
    {
      if conn !in recoveries || recoveries[conn].recoveryId != recoveryId {
        return TransactionMismatch;
      }
      var r := recoveries[conn];
      var cut := latest;
      if cut.None? {
        cut := LookupCut(r.cuts, backendId, sessionId);
      }
      if cut.None? {
        return NotAffected;
      }
      if r.cuts.None? {
        return NilCutMap;
      }
      recoveries := recoveries[conn := r.(cuts := Some(WithCut(r.cuts.value, backendId, sessionId, cut.value)))];
      return Frozen(cut.value);
    }

    method Unregister(conn: Conn)
      modifies this
      ensures seqNo == old(seqNo)
      ensures forall c ::
                WorldOf(c) == if c == conn then Next(old(WorldOf(c)), Step.Unregister, enc) else old(WorldOf(c))
    {
      recoveries := recoveries - {conn};
      completed := completed - {conn};
      outbox := outbox - {conn};
    }
  }
}
