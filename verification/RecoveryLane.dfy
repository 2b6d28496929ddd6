/**
 * Recovery of one connection: events stamped while a recovery transaction is open are held back and
 * handed over in one batch when it ends, by completion or by giving up on it.
 */
module RecoveryLane {
  import EventLog
  import opened Options

  const PENDING_MAX_EVENTS: nat := 1000
  const PENDING_MAX_BYTES: nat := 2 * 1024 * 1024
  // Milliseconds.
  const PENDING_TIMEOUT: int := 30 * 1000

  type Cut = EventLog.Cut

  type CutMap = map<string, map<string, Cut>>

  datatype Event = Event(seqNo: nat, backendId: string, sessionId: string, name: string, data: string)

  datatype Frame = EventFrame(event: Event) | CompleteFrame(recoveryId: string) | AbortedFrame(recoveryId: string)

  datatype Recovery = Recovery(
    recoveryId: string,
    pending: seq<Event>,
    pendingBytes: nat,
    startedAt: int,
    cuts: Option<CutMap>)

  datatype Lane = Lane(recovery: Option<Recovery>, completed: Option<string>, frames: seq<Frame>)

  const EMPTY_LANE := Lane(None, None, [])

  /** The length of an event's encoding. */
  type Encoder = Event -> nat

  function LookupCut(cuts: Option<CutMap>, backendId: string, sessionId: string): Option<Cut> {
    if cuts.Some? && backendId in cuts.value then Lookup(cuts.value[backendId], sessionId) else None
  }

  /** The program's comparison of two cut maps: a missing session reads as the zero cut. */
  predicate SameCuts(left: CutMap, right: CutMap) {
    && |left| == |right|
    && forall b | b in left ::
         && b in right && |left[b]| == |right[b]|
         && forall s | s in left[b] :: GetOr(right[b], s, EventLog.Cut("", 0)) == left[b][s]
  }

  /** Held events a completion still owes: those above their session's cut, or of a session without one. */
  predicate Owed(cuts: Option<CutMap>, e: Event) {
    var cut := LookupCut(cuts, e.backendId, e.sessionId);
    cut.None? || e.seqNo > cut.value.seqNo
  }

  function OwedEvents(cuts: Option<CutMap>, es: seq<Event>): seq<Event> {
    if es == [] then []
    else
      var last := es[|es| - 1];
      OwedEvents(cuts, es[..|es| - 1]) + if Owed(cuts, last) then [last] else []
  }

  function EventFrames(es: seq<Event>): (fs: seq<Frame>)
    ensures |fs| == |es| && forall i | 0 <= i < |es| :: fs[i] == EventFrame(es[i])
  {
    seq(|es|, i requires 0 <= i < |es| => EventFrame(es[i]))
  }

  /** As many of the events as the queue has room for, in order. */
  function Accepted(es: seq<Event>, room: nat): seq<Event> {
    if room < |es| then es[..room] else es
  }

  predicate MustDegrade(r: Recovery, e: Event, now: int, enc: Encoder) {
    || now - r.startedAt >= PENDING_TIMEOUT
    || |r.pending| + 1 > PENDING_MAX_EVENTS
    || r.pendingBytes + enc(e) > PENDING_MAX_BYTES
  }

  function Deliver(l: Lane, e: Event, now: int, room: nat, enc: Encoder): Lane {
    if l.recovery.None? then l.(frames := l.frames + EventFrames(Accepted([e], room)))
    else
      var r := l.recovery.value;
      if MustDegrade(r, e, now, enc) then
        l.(recovery := None, frames := l.frames + EventFrames(Accepted(r.pending + [e], room)))
      else
        l.(recovery := Some(r.(pending := r.pending + [e], pendingBytes := r.pendingBytes + enc(e))))
  }

  function BeginLane(l: Lane, id: string, now: int, cuts: Option<CutMap>): Lane {
    if id == "" || l.recovery.Some? then l else l.(recovery := Some(Recovery(id, [], 0, now, cuts)))
  }

  datatype CompleteOutcome = NotThisRecovery | CutMismatch | NoRoom | Completed

  function CompleteOutcomeOf(l: Lane, id: string, applied: Option<CutMap>, room: nat): CompleteOutcome {
    if l.recovery.None? || l.recovery.value.recoveryId != id then NotThisRecovery
    else
      var r := l.recovery.value;
      if r.cuts.Some? && (applied.None? || !SameCuts(r.cuts.value, applied.value)) then CutMismatch
      else if room < 1 + |OwedEvents(r.cuts, r.pending)| then NoRoom
      else Completed
  }

  function CompleteLane(l: Lane, id: string, applied: Option<CutMap>, room: nat): Lane {
    match CompleteOutcomeOf(l, id, applied, room)
    case NotThisRecovery => l
    case CutMismatch => l.(recovery := None, completed := Some(id))
    case NoRoom => l.(recovery := None)
    case Completed =>
      var r := l.recovery.value;
      l.(recovery := None, completed := Some(id),
         frames := l.frames + [CompleteFrame(id)] + EventFrames(OwedEvents(r.cuts, r.pending)))
  }

  function FailLane(l: Lane, id: string): Lane {
    if l.recovery.Some? && l.recovery.value.recoveryId == id then l.(recovery := None) else l
  }

  datatype FreezeOutcome = Frozen(cut: Cut) | TransactionMismatch | NotAffected | NilCutMap

  /** The cut a history snapshot freezes at: the newest stamped event, else the cut the recovery began with. */
  function FreezeOutcomeOf(l: Lane, id: string, backendId: string, sessionId: string,
                           latest: Option<Cut>): FreezeOutcome {
    if l.recovery.None? || l.recovery.value.recoveryId != id then TransactionMismatch
    else
      var cuts := l.recovery.value.cuts;
      var cut := if latest.Some? then latest else LookupCut(cuts, backendId, sessionId);
      if cut.None? then NotAffected
      else if cuts.None? then NilCutMap
      else Frozen(cut.value)
  }

  function WithCut(cuts: CutMap, backendId: string, sessionId: string, cut: Cut): CutMap {
    cuts[backendId := GetOr(cuts, backendId, map[])[sessionId := cut]]
  }

  function FreezeLane(l: Lane, id: string, backendId: string, sessionId: string, latest: Option<Cut>): Lane {
    match FreezeOutcomeOf(l, id, backendId, sessionId, latest)
    case Frozen(cut) =>
      var r := l.recovery.value;
      l.(recovery := Some(r.(cuts := Some(WithCut(r.cuts.value, backendId, sessionId, cut)))))
    case _ => l
  }

  // ---- Runs ----

  /** One connection under the publisher's stamping; `held` is what reached it since recovery began, at `since`. */
  datatype World = World(lane: Lane, seqNo: nat, held: seq<Event>, since: nat)

  datatype Step =
    | Publish(backendId: string, sessionId: string, name: string, data: string, targeted: bool, now: int, room: nat)
    | Begin(id: string, now: int, cuts: Option<CutMap>)
    | Complete(id: string, applied: Option<CutMap>, room: nat)
    | Fail(id: string)
    | Freeze(id: string, backendId: string, sessionId: string, latest: Option<Cut>)
    | Control(frame: Frame)
    | Unregister

  /** The event a publish step stamps. */
  function Stamped(w: World, step: Step): Event
    requires step.Publish?
  {
    Event(w.seqNo + 1, step.backendId, step.sessionId, step.name, step.data)
  }

  /** A stamped event passes the connection, or is delivered to it when it is targeted there. */
  function Pass(w: World, e: Event, targeted: bool, now: int, room: nat, enc: Encoder): World {
    if targeted then World(Deliver(w.lane, e, now, room, enc), e.seqNo, w.held + [e], w.since)
    else w.(seqNo := e.seqNo)
  }

  function Next(w: World, step: Step, enc: Encoder): World {
    match step
    case Publish(_, _, _, _, targeted, now, room) =>
      Pass(w, Stamped(w, step), targeted, now, room, enc)
    case Begin(id, now, cuts) =>
      var lane := BeginLane(w.lane, id, now, cuts);
      if lane == w.lane then w else w.(lane := lane, held := [], since := w.seqNo)
    case Complete(id, applied, room) => w.(lane := CompleteLane(w.lane, id, applied, room))
    case Fail(id) => w.(lane := FailLane(w.lane, id))
    case Freeze(id, b, s, latest) => w.(lane := FreezeLane(w.lane, id, b, s, latest))
    case Control(frame) => w.(lane := w.lane.(frames := w.lane.frames + [frame]))
    case Unregister => w.(lane := EMPTY_LANE)
  }

  function Run(steps: seq<Step>, enc: Encoder): World {
    if steps == [] then World(EMPTY_LANE, 0, [], 0)
    else Next(Run(steps[..|steps| - 1], enc), steps[|steps| - 1], enc)
  }

  function EventsIn(fs: seq<Frame>): seq<Event> {
    if fs == [] then []
    else EventsIn(fs[..|fs| - 1]) + if fs[|fs| - 1].EventFrame? then [fs[|fs| - 1].event] else []
  }

  /** Sequence numbers rise strictly and stay at or below n. */
  ghost predicate Ascending(es: seq<Event>, n: int) {
    && (forall i, j | 0 <= i < j < |es| :: es[i].seqNo < es[j].seqNo)
    && (forall i | 0 <= i < |es| :: es[i].seqNo <= n)
  }

  function PendingOf(l: Lane): seq<Event> {
    if l.recovery.Some? then l.recovery.value.pending else []
  }

  function EncodedTotal(es: seq<Event>, enc: Encoder): nat {
    if es == [] then 0 else EncodedTotal(es[..|es| - 1], enc) + enc(es[|es| - 1])
  }

  /** What a recovery holds is what reached the connection since it began, within the limits. */
  ghost predicate Holds(r: Recovery, held: seq<Event>, enc: Encoder) {
    && r.pending == held && r.pendingBytes == EncodedTotal(held, enc)
    && |held| <= PENDING_MAX_EVENTS && r.pendingBytes <= PENDING_MAX_BYTES
  }

  ghost predicate InRange(es: seq<Event>, above: int, upTo: int) {
    forall e | e in es :: above < e.seqNo <= upTo
  }

  /** The stamp that everything sent so far is at or below. */
  function SentUpTo(w: World): nat {
    if w.lane.recovery.Some? then w.since else w.seqNo
  }

  /** Held events rise from the stamp recovery began at; while it is open nothing newer than that stamp was sent. */
  ghost predicate Inv(w: World, enc: Encoder) {
    && w.since <= w.seqNo
    && InRange(EventsIn(w.lane.frames), -1, SentUpTo(w))
    && Ascending(PendingOf(w.lane), w.seqNo) && InRange(PendingOf(w.lane), w.since, w.seqNo)
    && (w.lane.recovery.Some? ==> Holds(w.lane.recovery.value, w.held, enc))
  }

  /** The event a step sends as a control frame, as a replay does, if any. */
  function Replayed(step: Step): Option<Event> {
    if step.Control? && step.frame.EventFrame? then Some(step.frame.event) else None
  }

  /** An event replayed was stamped before recovery began. */
  predicate FromBefore(w: World, step: Step) {
    Replayed(step).Some? ==> Replayed(step).value.seqNo <= w.since
  }

  /** An event replayed lies above the last event frame sent. */
  predicate AboveLast(w: World, step: Step) {
    var sent := EventsIn(w.lane.frames);
    Replayed(step).Some? && sent != [] ==> sent[|sent| - 1].seqNo < Replayed(step).value.seqNo
  }

  predicate ReplaysFromBefore(steps: seq<Step>, enc: Encoder) {
    steps != [] ==>
      && ReplaysFromBefore(steps[..|steps| - 1], enc)
      && FromBefore(Run(steps[..|steps| - 1], enc), steps[|steps| - 1])
  }

  /** Since the connection was last forgotten, each event replayed lay above the last event frame sent. */
  predicate ReplaysInOrder(steps: seq<Step>, enc: Encoder) {
    steps != [] && !steps[|steps| - 1].Unregister? ==>
      && ReplaysInOrder(steps[..|steps| - 1], enc)
      && AboveLast(Run(steps[..|steps| - 1], enc), steps[|steps| - 1])
  }

  lemma {:induction false} EventsInAppend(a: seq<Frame>, b: seq<Frame>)
    ensures EventsIn(a + b) == EventsIn(a) + EventsIn(b)
  {
    if b == [] {
      assert a + b == a;
    } else {
      assert (a + b)[..|a + b| - 1] == a + b[..|b| - 1];
      EventsInAppend(a, b[..|b| - 1]);
    }
  }

  lemma {:induction false} EventsInEventFrames(es: seq<Event>)
    ensures EventsIn(EventFrames(es)) == es
  {
    if es != [] {
      EventsInEventFrames(es[..|es| - 1]);
      assert EventFrames(es)[..|es| - 1] == EventFrames(es[..|es| - 1]);
    }
  }

  /** Sending events adds exactly them to the events in the outbox; a control frame adds none. */
  lemma EventsSent(fs: seq<Frame>, control: Frame, es: seq<Event>)
    requires !control.EventFrame?
    ensures EventsIn(fs + EventFrames(es)) == EventsIn(fs) + es
    ensures EventsIn(fs + [control]) == EventsIn(fs)
    ensures EventsIn(fs + [control] + EventFrames(es)) == EventsIn(fs) + es
  {
    EventsInAppend(fs, EventFrames(es));
    EventsInAppend(fs, [control]);
    EventsInAppend(fs + [control], EventFrames(es));
    EventsInEventFrames(es);
    assert EventsIn([control]) == [];
  }

  lemma {:induction false} OwedIsSubset(cuts: Option<CutMap>, es: seq<Event>)
    ensures forall e :: e in OwedEvents(cuts, es) <==> e in es && Owed(cuts, e)
  {
    if es != [] {
      OwedIsSubset(cuts, es[..|es| - 1]);
      assert es == es[..|es| - 1] + [es[|es| - 1]];
    }
  }

  lemma AscendingPrefix(a: seq<Event>, b: seq<Event>, n: int)
    requires Ascending(a + b, n)
    ensures Ascending(a, n)
  {
    assert forall i | 0 <= i < |a| :: (a + b)[i] == a[i];
  }

  lemma AscendingSnoc(es: seq<Event>, e: Event, n: int)
    ensures Ascending(es + [e], n) <==> Ascending(es, e.seqNo - 1) && e.seqNo <= n
  {
    var all := es + [e];
    assert all[|es|] == e && forall i | 0 <= i < |es| :: all[i] == es[i];
  }

  /** Leaving events out of the tail keeps a rising sequence rising. */
  lemma {:induction false} OwedAscends(cuts: Option<CutMap>, sent: seq<Event>, es: seq<Event>, n: int)
    requires Ascending(sent + es, n)
    ensures Ascending(sent + OwedEvents(cuts, es), n)
  {
    if es != [] {
      var front, last := es[..|es| - 1], es[|es| - 1];
      var kept := sent + OwedEvents(cuts, front);
      assert sent + es == sent + front + [last];
      AscendingSnoc(sent + front, last, n);
      OwedAscends(cuts, sent, front, last.seqNo - 1);
      AscendingSnoc(kept, last, n);
      assert sent + OwedEvents(cuts, es) == if Owed(cuts, last) then kept + [last] else kept;
    }
  }

  lemma SplitAt(sent: seq<Event>, batch: seq<Event>, k: nat)
    requires k <= |batch|
    ensures sent + batch == sent + batch[..k] + batch[k..]
  {
  }

  lemma SentSoFar(fs: seq<Frame>, es: seq<Event>)
    ensures EventsIn(fs + EventFrames(es)) == EventsIn(fs) + es
  {
    EventsInAppend(fs, EventFrames(es));
    EventsInEventFrames(es);
  }

  lemma AcceptedAscends(sent: seq<Event>, batch: seq<Event>, room: nat, n: int)
    requires Ascending(sent + batch, n)
    ensures Ascending(sent + Accepted(batch, room), n)
  {
    var k := if room < |batch| then room else |batch|;
    SplitAt(sent, batch, k);
    AscendingPrefix(sent + batch[..k], batch[k..], n);
    assert Accepted(batch, room) == batch[..k];
  }

  /** Enqueueing as much of a batch as there is room for keeps the order. */
  lemma SendKeepsOrder(fs: seq<Frame>, batch: seq<Event>, room: nat, n: int)
    requires Ascending(EventsIn(fs) + batch, n)
    ensures Ascending(EventsIn(fs + EventFrames(Accepted(batch, room))), n)
  {
    AcceptedAscends(EventsIn(fs), batch, room, n);
    SentSoFar(fs, Accepted(batch, room));
  }

  lemma DeliverKeepsHeld(l: Lane, held: seq<Event>, e: Event, now: int, room: nat, enc: Encoder)
    requires l.recovery.Some? ==> Holds(l.recovery.value, held, enc)
    ensures var after := Deliver(l, e, now, room, enc);
            after.recovery.Some? ==> Holds(after.recovery.value, held + [e], enc)
  {
    assert (held + [e])[..|held + [e]| - 1] == held;
  }

  lemma StepKeepsHeld(w: World, step: Step, enc: Encoder)
    requires w.lane.recovery.Some? ==> Holds(w.lane.recovery.value, w.held, enc)
    ensures var next := Next(w, step, enc); next.lane.recovery.Some? ==> Holds(next.lane.recovery.value, next.held, enc)
  {
    if step.Publish? && step.targeted { DeliverKeepsHeld(w.lane, w.held, Stamped(w, step), step.now, step.room, enc); }
  }

  // ---- What a step sends ----

  /** The events a step puts in the connection's queue. */
  function Sends(w: World, step: Step, enc: Encoder): seq<Event> {
    match step
    case Publish(_, _, _, _, targeted, now, room) =>
      var e := Stamped(w, step);
      if !targeted || (w.lane.recovery.Some? && !MustDegrade(w.lane.recovery.value, e, now, enc)) then []
      else Accepted(PendingOf(w.lane) + [e], room)
    case Complete(id, applied, room) =>
      if CompleteOutcomeOf(w.lane, id, applied, room).Completed? then
        OwedEvents(w.lane.recovery.value.cuts, w.lane.recovery.value.pending)
      else []
    case Control(frame) => if frame.EventFrame? then [frame.event] else []
    case _ => []
  }

  lemma StepSends(w: World, step: Step, enc: Encoder)
    requires !step.Unregister?
    ensures EventsIn(Next(w, step, enc).lane.frames) == EventsIn(w.lane.frames) + Sends(w, step, enc)
  {
    var fs := w.lane.frames;
    match step
    case Publish(_, _, _, _, targeted, now, room) =>
      SentSoFar(fs, Sends(w, step, enc));
      assert [] + [Stamped(w, step)] == [Stamped(w, step)];
      assert fs + EventFrames([]) == fs;
    case Complete(id, _, _) => EventsSent(fs, CompleteFrame(id), Sends(w, step, enc));
    case Control(frame) => assert (fs + [frame])[..|fs|] == fs;
    case _ =>
  }

  lemma AcceptedRises(batch: seq<Event>, room: nat, above: int, n: int)
    requires Ascending(batch, n) && InRange(batch, above, n)
    ensures Ascending(Accepted(batch, room), n) && InRange(Accepted(batch, room), above, n)
  {
  }

  lemma OwedRises(cuts: Option<CutMap>, es: seq<Event>, above: int, n: int)
    requires Ascending(es, n) && InRange(es, above, n)
    ensures Ascending(OwedEvents(cuts, es), n) && InRange(OwedEvents(cuts, es), above, n)
  {
    assert [] + es == es && [] + OwedEvents(cuts, es) == OwedEvents(cuts, es);
    OwedAscends(cuts, [], es, n);
    OwedIsSubset(cuts, es);
  }

  lemma BatchRises(pending: seq<Event>, e: Event, above: int, n: int)
    requires Ascending(pending, n) && InRange(pending, above, n) && above <= n < e.seqNo
    ensures Ascending(pending + [e], e.seqNo) && InRange(pending + [e], above, e.seqNo)
  {
    AscendingSnoc(pending, e, e.seqNo);
  }

  /** What a step sends, unless it is a replay, rises above everything sent before. */
  lemma SendsRise(w: World, step: Step, enc: Encoder)
    requires Inv(w, enc) && Replayed(step).None?
    ensures Ascending(Sends(w, step, enc), Next(w, step, enc).seqNo)
    ensures InRange(Sends(w, step, enc), SentUpTo(w), Next(w, step, enc).seqNo)
  {
    match step
    case Publish(_, _, _, _, targeted, now, room) =>
      BatchRises(PendingOf(w.lane), Stamped(w, step), SentUpTo(w), w.seqNo);
      AcceptedRises(PendingOf(w.lane) + [Stamped(w, step)], room, SentUpTo(w), w.seqNo + 1);
    case Complete(id, applied, room) =>
      if CompleteOutcomeOf(w.lane, id, applied, room).Completed? {
        OwedRises(w.lane.recovery.value.cuts, PendingOf(w.lane), w.since, w.seqNo);
      }
    case _ =>
  }

  lemma AscendingJoin(a: seq<Event>, b: seq<Event>, at: int, n: int)
    requires Ascending(a, at) && Ascending(b, n) && InRange(b, at, n) && at <= n
    ensures Ascending(a + b, n)
  {
    var all := a + b;
    forall i, j | 0 <= i < j < |all| ensures all[i].seqNo < all[j].seqNo {
      if i < |a| <= j { assert b[j - |a|] in b; }
    }
  }

  /** A bounded sequence rises with one more event exactly when it rises and the event lies above its last. */
  lemma AscendingWithOne(es: seq<Event>, e: Event, at: int, n: int)
    requires InRange(es, -1, at) && e.seqNo <= n && at <= n
    ensures Ascending(es + [e], n) <==> Ascending(es, at) && (es != [] ==> es[|es| - 1].seqNo < e.seqNo)
  {
    AscendingSnoc(es, e, n);
    forall i | 0 <= i < |es| ensures es[i].seqNo <= at { assert es[i] in es; }
  }

  /** Of a bounded sequence the order alone decides. */
  lemma BoundedAscends(es: seq<Event>, at: int, n: int)
    requires InRange(es, -1, at) && at <= n
    ensures Ascending(es, n) <==> Ascending(es, at)
  {
    forall i | 0 <= i < |es| ensures es[i].seqNo <= at { assert es[i] in es; }
  }

  lemma MoreAscendsIff(sent: seq<Event>, sends: seq<Event>, at: int, n: int)
    requires InRange(sent, -1, at) && Ascending(sends, n) && InRange(sends, at, n) && at <= n
    ensures Ascending(sent + sends, n) <==> Ascending(sent, at)
  {
    BoundedAscends(sent, at, n);
    if Ascending(sent, at) { AscendingJoin(sent, sends, at, n); }
    if Ascending(sent + sends, n) { AscendingPrefix(sent, sends, n); }
  }

  /** After a step the events sent rise exactly when they did and what it replays lies above the last. */
  lemma StepKeepsOrderIff(w: World, step: Step, enc: Encoder)
    requires Inv(w, enc) && FromBefore(w, step)
    ensures var next := Next(w, step, enc);
            Ascending(EventsIn(next.lane.frames), next.seqNo) <==>
            step.Unregister? || (Ascending(EventsIn(w.lane.frames), w.seqNo) && AboveLast(w, step))
  {
    if !step.Unregister? {
      var next, sent, sends := Next(w, step, enc), EventsIn(w.lane.frames), Sends(w, step, enc);
      StepSends(w, step, enc);
      BoundedAscends(sent, SentUpTo(w), w.seqNo);
      if Replayed(step).Some? {
        AscendingWithOne(sent, step.frame.event, w.seqNo, w.seqNo);
      } else {
        SendsRise(w, step, enc);
        MoreAscendsIff(sent, sends, SentUpTo(w), next.seqNo);
      }
    }
  }

  lemma StepKeepsPending(w: World, step: Step, enc: Encoder)
    requires Inv(w, enc)
    ensures var next := Next(w, step, enc);
            && next.since <= next.seqNo
            && Ascending(PendingOf(next.lane), next.seqNo) && InRange(PendingOf(next.lane), next.since, next.seqNo)
  {
    var next := Next(w, step, enc);
    if step.Publish? {
      if step.targeted { AscendingSnoc(PendingOf(w.lane), Stamped(w, step), w.seqNo + 1); }
    } else if PendingOf(next.lane) != [] {
      assert PendingOf(next.lane) == PendingOf(w.lane);
    }
  }

  lemma RangeJoin(a: seq<Event>, b: seq<Event>, n: int)
    requires InRange(a, -1, n) && InRange(b, -1, n)
    ensures InRange(a + b, -1, n)
  {
  }

  lemma RangeWidens(es: seq<Event>, above: int, below: int, at: int, n: int)
    requires InRange(es, above, at) && below <= above && at <= n
    ensures InRange(es, below, n)
  {
  }

  /** While recovery is open a step sends nothing but what it replays. */
  lemma OpenSendsReplaysOnly(w: World, step: Step, enc: Encoder)
    requires !step.Unregister? && Next(w, step, enc).lane.recovery.Some?
    ensures w.lane.recovery.Some? ==> Next(w, step, enc).since == w.since
    ensures w.lane.recovery.Some? && Replayed(step).None? ==> Sends(w, step, enc) == []
    ensures w.lane.recovery.None? ==> Sends(w, step, enc) == [] && Next(w, step, enc).since == w.seqNo
  {
  }

  lemma SendsInRange(w: World, step: Step, enc: Encoder)
    requires Inv(w, enc) && FromBefore(w, step) && !step.Unregister?
    ensures InRange(Sends(w, step, enc), -1, SentUpTo(Next(w, step, enc)))
  {
    var next := Next(w, step, enc);
    if next.lane.recovery.Some? {
      OpenSendsReplaysOnly(w, step, enc);
    } else if Replayed(step).None? {
      SendsRise(w, step, enc);
      RangeWidens(Sends(w, step, enc), SentUpTo(w), -1, next.seqNo, next.seqNo);
    }
  }

  lemma SentUpToRises(w: World, step: Step, enc: Encoder)
    requires w.since <= w.seqNo && !step.Unregister?
    ensures SentUpTo(w) <= SentUpTo(Next(w, step, enc))
  {
  }

  lemma StepKeepsSent(w: World, step: Step, enc: Encoder)
    requires Inv(w, enc) && FromBefore(w, step)
    ensures var next := Next(w, step, enc); InRange(EventsIn(next.lane.frames), -1, SentUpTo(next))
  {
    if !step.Unregister? {
      StepSends(w, step, enc);
      SentUpToRises(w, step, enc);
      RangeWidens(EventsIn(w.lane.frames), -1, -1, SentUpTo(w), SentUpTo(Next(w, step, enc)));
      SendsInRange(w, step, enc);
      RangeJoin(EventsIn(w.lane.frames), Sends(w, step, enc), SentUpTo(Next(w, step, enc)));
    }
  }

  lemma StepKeepsInv(w: World, step: Step, enc: Encoder)
    requires Inv(w, enc) && FromBefore(w, step)
    ensures Inv(Next(w, step, enc), enc)
  {
    StepKeepsSent(w, step, enc);
    StepKeepsPending(w, step, enc);
    StepKeepsHeld(w, step, enc);
  }

  /**
   * Over any run, refused frames and lost recoveries included, the event frames of a connection rise strictly
   * exactly when each event replayed lay above the last event frame sent before it.
   */
  lemma {:induction false} SequenceRises(steps: seq<Step>, enc: Encoder)
    requires ReplaysFromBefore(steps, enc)
    ensures var w := Run(steps, enc);
            Inv(w, enc) && (Ascending(EventsIn(w.lane.frames), w.seqNo) <==> ReplaysInOrder(steps, enc))
  {
    if steps != [] {
      var front, step := steps[..|steps| - 1], steps[|steps| - 1];
      SequenceRises(front, enc);
      StepKeepsInv(Run(front, enc), step, enc);
      StepKeepsOrderIff(Run(front, enc), step, enc);
    }
  }

  /** Without replays they rise in every run. */
  lemma {:induction false} LiveSequenceRises(steps: seq<Step>, enc: Encoder)
    requires forall step | step in steps :: Replayed(step).None?
    ensures ReplaysFromBefore(steps, enc) && ReplaysInOrder(steps, enc)
    ensures var w := Run(steps, enc); Inv(w, enc) && Ascending(EventsIn(w.lane.frames), w.seqNo)
  {
    if steps != [] {
      LiveSequenceRises(steps[..|steps| - 1], enc);
    }
    SequenceRises(steps, enc);
  }

  lemma RunSnoc(steps: seq<Step>, step: Step, enc: Encoder)
    ensures Run(steps + [step], enc) == Next(Run(steps, enc), step, enc)
    ensures ReplaysFromBefore(steps + [step], enc) <==>
            ReplaysFromBefore(steps, enc) && FromBefore(Run(steps, enc), step)
  {
    assert (steps + [step])[..|steps|] == steps;
  }

  /** Giving up on a recovery with any room sends something newer than the stamp it began at. */
  lemma DegradingSendsNewer(w: World, step: Step, enc: Encoder)
    requires Inv(w, enc) && w.lane.recovery.Some? && step.Publish? && step.targeted && step.room > 0
    requires Next(w, step, enc).lane.recovery.None?
    ensures var sent := EventsIn(Next(w, step, enc).lane.frames); sent != [] && sent[|sent| - 1].seqNo > w.since
  {
    var sends := Sends(w, step, enc);
    StepSends(w, step, enc);
    SendsRise(w, step, enc);
    assert sends[|sends| - 1] in sends;
  }

  lemma BelowLastBreaks(es: seq<Event>, e: Event, n: int)
    requires es != [] && es[|es| - 1].seqNo >= e.seqNo
    ensures !Ascending(es + [e], n)
  {
    var all := es + [e];
    assert all[|es| - 1] == es[|es| - 1] && all[|es|] == e;
  }

  lemma ReplayAppends(l: Lane, e: Event)
    ensures EventsIn(l.frames + [EventFrame(e)]) == EventsIn(l.frames) + [e]
  {
    assert (l.frames + [EventFrame(e)])[..|l.frames|] == l.frames;
  }

  /** A recovery given up on while its replay is under way: the rest of the replay falls behind what was held. */
  lemma DegradedReplayFallsBack(w: World, step: Step, early: Event, enc: Encoder)
    requires Inv(w, enc) && early.seqNo <= w.since && w.lane.recovery.Some?
    requires step.Publish? && step.targeted && step.room > 0 && Next(w, step, enc).lane.recovery.None?
    ensures var after := Next(Next(w, step, enc), Control(EventFrame(early)), enc);
            !Ascending(EventsIn(after.lane.frames), after.seqNo)
  {
    var next := Next(w, step, enc);
    DegradingSendsNewer(w, step, enc);
    ReplayAppends(next.lane, early);
    BelowLastBreaks(EventsIn(next.lane.frames), early, next.seqNo);
  }

  // ---- When a recovery is over ----

  /** Whether an open recovery survives an event reaching it, all its numbers given. */
  predicate Bears(age: int, events: nat, bytes: nat) {
    age < 30_000 && events <= 1000 && bytes <= 2_097_152
  }

  /** The recovery that should be open after the calls so far, and the clock of the call that opened it. */
  function Standing(steps: seq<Step>, enc: Encoder): Option<(string, int)> {
    if steps == [] then None
    else
      var front, last := steps[..|steps| - 1], steps[|steps| - 1];
      var before, reached := Standing(front, enc), Run(steps, enc).held;
      match last
      case Publish(_, _, _, _, targeted, now, _) =>
        if targeted && before.Some? && !Bears(now - before.value.1, |reached|, EncodedTotal(reached, enc)) then None
        else before
      case Begin(id, now, _) => if before.None? && id != "" then Some((id, now)) else before
      case Complete(id, _, _) => if before.Some? && before.value.0 == id then None else before
      case Fail(id) => if before.Some? && before.value.0 == id then None else before
      case Unregister => None
      case _ => before
  }

  /** The lane's recovery is the one the calls left open, begun when they say, holding what reached it since. */
  ghost predicate StandsAs(w: World, standing: Option<(string, int)>, enc: Encoder) {
    match w.lane.recovery
    case None => standing.None?
    case Some(r) => standing == Some((r.recoveryId, r.startedAt)) && Holds(r, w.held, enc)
  }

  lemma PublishStands(w: World, step: Step, standing: Option<(string, int)>, enc: Encoder)
    requires StandsAs(w, standing, enc) && step.Publish? && step.targeted && standing.Some?
    ensures var next := Next(w, step, enc);
            && next.held == w.held + [Stamped(w, step)]
            && (next.lane.recovery.Some? <==>
               Bears(step.now - standing.value.1, |next.held|, EncodedTotal(next.held, enc)))
            && (next.lane.recovery.Some? ==> StandsAs(next, standing, enc))
  {
    var e := Stamped(w, step);
    assert (w.held + [e])[..|w.held|] == w.held;
    DeliverKeepsHeld(w.lane, w.held, e, step.now, step.room, enc);
  }

  lemma StepStands(w: World, step: Step, before: Option<(string, int)>, after: Option<(string, int)>, enc: Encoder)
    requires StandsAs(w, before, enc)
    requires step.Publish? ==>
               var reached := Next(w, step, enc).held;
               after == if step.targeted && before.Some?
                           && !Bears(step.now - before.value.1, |reached|, EncodedTotal(reached, enc)) then None
                        else before
    requires step.Begin? ==> after == if before.None? && step.id != "" then Some((step.id, step.now)) else before
    requires step.Complete? || step.Fail? ==>
               after == if before.Some? && before.value.0 == step.id then None else before
    requires step.Unregister? ==> after == None
    requires step.Freeze? || step.Control? ==> after == before
    ensures StandsAs(Next(w, step, enc), after, enc)
  {
    if step.Publish? && step.targeted && before.Some? { PublishStands(w, step, before, enc); }
  }

  /** In every run a recovery is open exactly when the calls left it open, and none is given up on before its time. */
  lemma {:induction false} OpenAsTheCallsSay(steps: seq<Step>, enc: Encoder)
    ensures StandsAs(Run(steps, enc), Standing(steps, enc), enc)
  {
    if steps != [] {
      var front, last := steps[..|steps| - 1], steps[|steps| - 1];
      OpenAsTheCallsSay(front, enc);
      StepStands(Run(front, enc), last, Standing(front, enc), Standing(steps, enc), enc);
    }
  }

  /**
   * An event that reaches an open recovery leaves it open exactly when less than 30 seconds have passed since the
   * call that opened it, at most 1000 events reached the connection since, and they come to at most 2 MiB encoded.
   */
  lemma StaysOpenIff(steps: seq<Step>, step: Step, enc: Encoder)
    requires step.Publish? && step.targeted && Run(steps, enc).lane.recovery.Some?
    ensures Standing(steps, enc).Some?
    ensures var began, next := Standing(steps, enc).value.1, Next(Run(steps, enc), step, enc);
            && next.held == Run(steps, enc).held + [Stamped(Run(steps, enc), step)]
            && (next.lane.recovery.Some? <==>
                && step.now - began < 30_000 && |next.held| <= 1000 && EncodedTotal(next.held, enc) <= 2_097_152)
            && (next.lane.recovery.Some? ==> next.lane.frames == Run(steps, enc).lane.frames)
  {
    OpenAsTheCallsSay(steps, enc);
    PublishStands(Run(steps, enc), step, Standing(steps, enc), enc);
  }

  /**
   * An acknowledgement ends the recovery it names, whatever comes of it: marker and owed events go out when the cuts
   * compare equal and the queue has room for all of them, and a repeat is answered as known unless room was missing.
   */
  lemma AcknowledgementEndsIt(steps: seq<Step>, id: string, applied: Option<CutMap>, room: nat, enc: Encoder)
    ensures var w, standing := Run(steps, enc), Standing(steps, enc);
            var next := Next(w, Complete(id, applied, room), enc).lane;
            if standing.None? || standing.value.0 != id then next == w.lane
            else
              && w.lane.recovery.Some? && next.recovery.None?
              && var cuts := w.lane.recovery.value.cuts;
                 var owed := OwedEvents(cuts, w.held);
                 var unequal := cuts.Some? && (applied.None? || !SameCuts(cuts.value, applied.value));
                 && next.frames == w.lane.frames
                                   + (if unequal || room <= |owed| then [] else [CompleteFrame(id)] + EventFrames(owed))
                 && next.completed == if !unequal && room <= |owed| then w.lane.completed else Some(id)
  {
    OpenAsTheCallsSay(steps, enc);
    var l := Run(steps, enc).lane;
    assert l.frames + [] == l.frames;
    if l.recovery.Some? {
      var owed := OwedEvents(l.recovery.value.cuts, l.recovery.value.pending);
      assert l.frames + [CompleteFrame(id)] + EventFrames(owed) == l.frames + ([CompleteFrame(id)] + EventFrames(owed));
    }
  }

  /**
   * A recovery that completes hands over every event that reached the connection since it began, once and in
   * order, except those at or below their session's cut; before that it had handed over none of them.
   */
  lemma CompletionDeliversHeld(steps: seq<Step>, enc: Encoder, id: string, applied: Option<CutMap>, room: nat)
    requires ReplaysFromBefore(steps, enc)
    requires CompleteOutcomeOf(Run(steps, enc).lane, id, applied, room).Completed?
    ensures var w := Run(steps, enc);
            var after := Next(w, Complete(id, applied, room), enc);
            && after.lane.recovery.None?
            && EventsIn(after.lane.frames) == EventsIn(w.lane.frames) + OwedEvents(w.lane.recovery.value.cuts, w.held)
            && (Ascending(EventsIn(after.lane.frames), w.seqNo) <==> ReplaysInOrder(steps, enc))
            && forall e | e in w.held ::
                 && e !in EventsIn(w.lane.frames)
                 && (e in EventsIn(after.lane.frames) <==> Owed(w.lane.recovery.value.cuts, e))
  {
    var w, step := Run(steps, enc), Complete(id, applied, room);
    SequenceRises(steps, enc);
    StepSends(w, step, enc);
    StepKeepsOrderIff(w, step, enc);
    OwedIsSubset(w.lane.recovery.value.cuts, w.held);
  }

  /** A recovery given up on hands over everything it held, and the event that ended it, each once. */
  lemma DegradingDeliversHeld(steps: seq<Step>, enc: Encoder, step: Step)
    requires ReplaysFromBefore(steps, enc)
    requires step.Publish? && step.targeted && Run(steps, enc).lane.recovery.Some?
    requires Next(Run(steps, enc), step, enc).lane.recovery.None?
    requires step.room > |Run(steps, enc).held|
    ensures var w := Run(steps, enc);
            var after := Next(w, step, enc);
            && EventsIn(after.lane.frames) == EventsIn(w.lane.frames) + (w.held + [Stamped(w, step)])
            && (Ascending(EventsIn(after.lane.frames), after.seqNo) <==> ReplaysInOrder(steps, enc))
  {
    var w := Run(steps, enc);
    SequenceRises(steps, enc);
    StepSends(w, step, enc);
    StepKeepsOrderIff(w, step, enc);
  }

  /** A frozen snapshot moves its own session's cut, so a completion owes of that session just what is newer. */
  lemma FreezeMovesOneCut(l: Lane, id: string, backendId: string, sessionId: string, latest: Option<Cut>)
    requires FreezeOutcomeOf(l, id, backendId, sessionId, latest).Frozen?
    ensures var cut := FreezeOutcomeOf(l, id, backendId, sessionId, latest).cut;
            var before, after := l.recovery.value, FreezeLane(l, id, backendId, sessionId, latest).recovery.value;
            && after.pending == before.pending
            && (forall b, s | (b, s) != (backendId, sessionId) ::
                 LookupCut(after.cuts, b, s) == LookupCut(before.cuts, b, s))
            && forall e: Event ::
                 Owed(after.cuts, e) <==>
                 if e.backendId == backendId && e.sessionId == sessionId then e.seqNo > cut.seqNo
                 else Owed(before.cuts, e)
  {
    var cut := FreezeOutcomeOf(l, id, backendId, sessionId, latest).cut;
    var cuts := l.recovery.value.cuts.value;
    var after := WithCut(cuts, backendId, sessionId, cut);
    forall b, s ensures LookupCut(Some(after), b, s) ==
                        if b == backendId && s == sessionId then Some(cut) else LookupCut(Some(cuts), b, s)
    {
      assert b != backendId ==> (b in after <==> b in cuts);
    }
  }

  /**
   * Freezing names the open recovery or fails; the cut it freezes at is the session's newest stamped event while one
   * is known, else the cut the recovery has for it, and a session with neither is not affected.
   */
  lemma FreezeTakesNewest(l: Lane, id: string, backendId: string, sessionId: string, latest: Option<Cut>)
    ensures var outcome := FreezeOutcomeOf(l, id, backendId, sessionId, latest);
            if l.recovery.None? || l.recovery.value.recoveryId != id then outcome == TransactionMismatch
            else
              var cuts := l.recovery.value.cuts;
              var recorded := LookupCut(cuts, backendId, sessionId);
              if latest.None? && recorded.None? then outcome == NotAffected
              else if cuts.None? then outcome == NilCutMap
              else outcome == Frozen(if latest.Some? then latest.value else recorded.value)
  {
  }

  /** Freezing writes to a missing cut map exactly when the open recovery has none and the session's cut is known. */
  lemma NilCutMapIff(l: Lane, id: string, backendId: string, sessionId: string, latest: Option<Cut>)
    ensures FreezeOutcomeOf(l, id, backendId, sessionId, latest).NilCutMap? <==>
            l.recovery.Some? && l.recovery.value.recoveryId == id && l.recovery.value.cuts.None? && latest.Some?
  {
  }

  /** A recovery begun without cuts gets there at once. */
  lemma NilCutMapReached(id: string, now: int, backendId: string, sessionId: string, latest: Cut, enc: Encoder)
    requires id != ""
    ensures FreezeOutcomeOf(Run([Begin(id, now, None)], enc).lane, id, backendId, sessionId, Some(latest)).NilCutMap?
  {
    var steps := [Begin(id, now, None)];
    assert steps[..0] == [];
    assert Run(steps, enc) == Next(Run([], enc), steps[0], enc);
  }

  /** When every recovery begins with cuts, as the program's own callers see to, no run gets there. */
  lemma {:induction false} CutsGivenNoNilCutMap(steps: seq<Step>, enc: Encoder)
    requires forall i | 0 <= i < |steps| && steps[i].Begin? :: steps[i].cuts.Some?
    ensures Run(steps, enc).lane.recovery.Some? ==> Run(steps, enc).lane.recovery.value.cuts.Some?
    ensures forall id, b, s, latest :: !FreezeOutcomeOf(Run(steps, enc).lane, id, b, s, latest).NilCutMap?
  {
    if steps != [] {
      var front, last := steps[..|steps| - 1], steps[|steps| - 1];
      CutsGivenNoNilCutMap(front, enc);
      assert last.Begin? ==> last.cuts.Some?;
    }
  }

  // ---- Comparing cut maps ----

  const ZERO_CUT := EventLog.Cut("", 0)

  predicate NoZeroCut(cuts: CutMap) {
    forall b, s | b in cuts && s in cuts[b] :: cuts[b][s] != ZERO_CUT
  }

  /** A map without zero cuts compares equal to itself only. */
  lemma SameCutsIsEquality(left: CutMap, right: CutMap)
    requires NoZeroCut(left)
    ensures SameCuts(left, right) <==> left == right
  {
    if SameCuts(left, right) {
      SameDomain(left.Keys, right.Keys);
      forall b | b in left ensures left[b] == right[b] {
        assert |left[b].Keys| == |right[b].Keys|;
        SameDomain(left[b].Keys, right[b].Keys);
      }
    }
  }

  lemma SameDomain<T>(a: set<T>, b: set<T>)
    requires |a| == |b| && (forall x | x in a :: x in b)
    ensures a == b
  {
    assert b == a + (b - a);
    assert |b| == |a| + |b - a|;
  }

  /** There is always a session id that is none of these: one longer than all of them. */
  lemma {:induction false} LongerId(ids: set<string>) returns (id: string)
    ensures forall x | x in ids :: |x| < |id|
    decreases ids
  {
    if ids == {} {
      id := "";
    } else {
      var x :| x in ids;
      var rest := LongerId(ids - {x});
      id := rest + x + "+";
      assert |id| == |rest| + |x| + 1;
    }
  }

  /** Beside a zero cut another session's passes: the map with the two swapped compares equal. */
  lemma ZeroCutPassesForMissing(left: CutMap, b: string, s: string) returns (right: CutMap)
    requires b in left && s in left[b] && left[b][s] == ZERO_CUT
    ensures SameCuts(left, right) && left != right
  {
    var other := LongerId(left[b].Keys);
    var swapped := (left[b] - {s})[other := EventLog.Cut("e", 9)];
    right := left[b := swapped];
    assert other !in left[b] && s !in swapped;
    assert swapped.Keys == left[b].Keys - {s} + {other};
    assert |swapped| == |swapped.Keys| == |left[b].Keys| == |left[b]|;
    assert right.Keys == left.Keys;
    assert |right| == |right.Keys| == |left|;
  }

  /** The comparison a completion makes is equality exactly for maps without a zero cut. */
  lemma SameCutsExactIff(left: CutMap)
    ensures NoZeroCut(left) <==> forall right: CutMap :: SameCuts(left, right) <==> left == right
  {
    if NoZeroCut(left) {
      forall right: CutMap ensures SameCuts(left, right) <==> left == right {
        SameCutsIsEquality(left, right);
      }
    } else {
      var b, s :| b in left && s in left[b] && left[b][s] == ZERO_CUT;
      var right := ZeroCutPassesForMissing(left, b, s);
      assert !(SameCuts(left, right) <==> left == right);
    }
  }

  /**
   * So an acknowledgement of other cuts than the recovery's own is always caught exactly when none of those is
   * zero.
   */
  lemma OtherCutsCaughtIff(l: Lane, id: string, room: nat)
    requires l.recovery.Some? && l.recovery.value.recoveryId == id && l.recovery.value.cuts.Some?
    ensures var cuts := l.recovery.value.cuts.value;
            NoZeroCut(cuts) <==>
            forall applied: CutMap | applied != cuts :: CompleteOutcomeOf(l, id, Some(applied), room).CutMismatch?
  {
    var cuts := l.recovery.value.cuts.value;
    if NoZeroCut(cuts) {
      forall applied: CutMap | applied != cuts ensures CompleteOutcomeOf(l, id, Some(applied), room).CutMismatch? {
        SameCutsIsEquality(cuts, applied);
      }
    } else {
      var b, s :| b in cuts && s in cuts[b] && cuts[b][s] == ZERO_CUT;
      var applied := ZeroCutPassesForMissing(cuts, b, s);
      assert !CompleteOutcomeOf(l, id, Some(applied), room).CutMismatch?;
    }
  }

  /** Such a pair: two sessions of one backend, the zero cut of the first taken for missing. */
  lemma TwoSessionsPass()
    ensures SameCuts(map["b" := map["s" := ZERO_CUT]], map["b" := map["t" := EventLog.Cut("e", 9)]])
  {
    var left, right := map["s" := ZERO_CUT], map["t" := EventLog.Cut("e", 9)];
    assert left.Keys == {"s"} && right.Keys == {"t"};
  }
}
