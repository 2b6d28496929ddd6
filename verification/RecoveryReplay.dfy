/**
 * A reconnecting client gets each event of a session above its cursor once: first the replay up to the cut the
 * buffer answers with, then what a completed recovery still owes above that cut.
 */
module RecoveryReplay {
  import opened EventLog
  import opened RecoveryLane
  import opened Sequences
  import Buffers = EventBuffer
  import Options

  // ---- The events of one session ----

  predicate Concerns(e: Event, key: Key, above: int) {
    e.backendId == key.backendId && e.sessionId == key.sessionId && e.seqNo > above
  }

  /** The events of a session above a sequence number, in order. */
  function Session(es: seq<Event>, key: Key, above: int): seq<Event> {
    if es == [] then []
    else Session(es[..|es| - 1], key, above) + if Concerns(es[|es| - 1], key, above) then [es[|es| - 1]] else []
  }

  lemma {:induction false} SessionAppend(a: seq<Event>, b: seq<Event>, key: Key, above: int)
    ensures Session(a + b, key, above) == Session(a, key, above) + Session(b, key, above)
  {
    if b == [] {
      assert a + b == a;
    } else {
      var front, last := b[..|b| - 1], b[|b| - 1];
      assert (a + b)[..|a + b| - 1] == a + front;
      SessionAppend(a, front, key, above);
      var added := if Concerns(last, key, above) then [last] else [];
      Reassociate(Session(a, key, above), Session(front, key, above), added);
    }
  }

  /** Raising the bound leaves out nothing when all of the session lies above it anyway. */
  lemma {:induction false} SameBound(es: seq<Event>, key: Key, low: int, high: int)
    requires forall e | e in es && Concerns(e, key, -1) :: e.seqNo > low <==> e.seqNo > high
    ensures Session(es, key, low) == Session(es, key, high)
  {
    if es != [] { SameBound(es[..|es| - 1], key, low, high); }
  }

  /** What a completion owes of a session with a cut is what it held of it above the cut. */
  lemma {:induction false} OwedOfSession(cuts: Options.Option<CutMap>, es: seq<Event>, key: Key, above: int)
    requires LookupCut(cuts, key.backendId, key.sessionId).Some?
    requires above == LookupCut(cuts, key.backendId, key.sessionId).value.seqNo
    ensures Session(OwedEvents(cuts, es), key, -1) == Session(es, key, above)
  {
    if es != [] {
      var front, last := es[..|es| - 1], es[|es| - 1];
      OwedOfSession(cuts, front, key, above);
      SessionAppend(OwedEvents(cuts, front), if Owed(cuts, last) then [last] else [], key, -1);
    }
  }

  // ---- What a run publishes, replays and hands over ----

  function Published(steps: seq<Step>, enc: Encoder): seq<Event> {
    if steps == [] then []
    else
      var front, step := steps[..|steps| - 1], steps[|steps| - 1];
      Published(front, enc) + if step.Publish? then [Stamped(Run(front, enc), step)] else []
  }

  function ReplayedIn(steps: seq<Step>): seq<Event> {
    if steps == [] then []
    else
      var e := Replayed(steps[|steps| - 1]);
      ReplayedIn(steps[..|steps| - 1]) + if e.Some? then [e.value] else []
  }

  /** Neither a new recovery nor the end of the connection. */
  predicate Undisturbed(steps: seq<Step>) {
    forall step | step in steps :: !step.Begin? && !step.Unregister?
  }

  /** Every event of the session reaches the connection. */
  predicate Targeted(steps: seq<Step>, key: Key) {
    forall step | step in steps && step.Publish? ::
      step.backendId == key.backendId && step.sessionId == key.sessionId ==> step.targeted
  }

  lemma RunSnoc(steps: seq<Step>, more: seq<Step>, enc: Encoder)
    requires more != []
    ensures var front, last := more[..|more| - 1], more[|more| - 1];
            && Run(steps + more, enc) == Next(Run(steps + front, enc), last, enc)
            && Published(steps + more, enc) ==
               Published(steps + front, enc) + if last.Publish? then [Stamped(Run(steps + front, enc), last)] else []
  {
    assert (steps + more)[..|steps + more| - 1] == steps + more[..|more| - 1];
  }

  lemma {:induction false} PublishedGrows(steps: seq<Step>, more: seq<Step>, enc: Encoder)
    ensures Published(steps, enc) <= Published(steps + more, enc)
  {
    if more == [] {
      assert steps + more == steps;
    } else {
      PublishedGrows(steps, more[..|more| - 1], enc);
      RunSnoc(steps, more, enc);
    }
  }

  /** What was published by the later of two stretches of a run. */
  function PublishedBy(steps: seq<Step>, more: seq<Step>, enc: Encoder): (es: seq<Event>)
    ensures Published(steps + more, enc) == Published(steps, enc) + es
  {
    PublishedGrows(steps, more, enc);
    Published(steps + more, enc)[|Published(steps, enc)|..]
  }

  lemma PublishedBySnoc(steps: seq<Step>, more: seq<Step>, enc: Encoder)
    requires more != []
    ensures var front, last := more[..|more| - 1], more[|more| - 1];
            PublishedBy(steps, more, enc) ==
            PublishedBy(steps, front, enc) + if last.Publish? then [Stamped(Run(steps + front, enc), last)] else []
  {
    var front, last := more[..|more| - 1], more[|more| - 1];
    var added := if last.Publish? then [Stamped(Run(steps + front, enc), last)] else [];
    RunSnoc(steps, more, enc);
    Reassociate(Published(steps, enc), PublishedBy(steps, front, enc), added);
    SameTail(Published(steps, enc), PublishedBy(steps, more, enc), PublishedBy(steps, front, enc) + added);
  }

  lemma SameTail<T>(head: seq<T>, x: seq<T>, y: seq<T>)
    requires head + x == head + y
    ensures x == y
  {
    assert x == (head + x)[|head|..] && y == (head + y)[|head|..];
  }

  // ---- While a recovery is open ----

  lemma StaysClosed(w: World, step: Step, enc: Encoder)
    requires w.lane.recovery.None? && !step.Begin?
    ensures Next(w, step, enc).lane.recovery.None?
  {
  }

  /** A step that leaves a recovery open sends what it replays. */
  lemma OpenStepSends(w: World, step: Step, enc: Encoder)
    requires w.lane.recovery.Some? && Next(w, step, enc).lane.recovery.Some? && !step.Unregister?
    ensures var next := Next(w, step, enc);
            EventsIn(next.lane.frames) == EventsIn(w.lane.frames) + ReplayedIn([step]) && next.since == w.since
  {
    StepSends(w, step, enc);
    OpenSendsReplaysOnly(w, step, enc);
    assert [step][..0] == [] && ReplayedIn([step]) == Sends(w, step, enc);
  }

  /** And holds what it publishes for the connection. */
  lemma OpenStepHolds(w: World, step: Step, key: Key, enc: Encoder)
    requires w.lane.recovery.Some? && Next(w, step, enc).lane.recovery.Some?
    requires step.Publish? && step.backendId == key.backendId && step.sessionId == key.sessionId ==> step.targeted
    ensures Session(Next(w, step, enc).held, key, -1) ==
            Session(w.held, key, -1) + Session(if step.Publish? then [Stamped(w, step)] else [], key, -1)
  {
    if step.Publish? {
      SessionAppend(w.held, [Stamped(w, step)], key, -1);
      if !step.targeted { SessionOfOther(Stamped(w, step), key); }
    }
  }

  lemma SessionOfOther(e: Event, key: Key)
    requires Key(e.backendId, e.sessionId) != key
    ensures Session([e], key, -1) == []
  {
  }

  lemma WasOpen(steps: seq<Step>, more: seq<Step>, enc: Encoder)
    requires more != [] && Undisturbed(more) && Run(steps + more, enc).lane.recovery.Some?
    ensures Undisturbed(more[..|more| - 1]) && Run(steps + more[..|more| - 1], enc).lane.recovery.Some?
  {
    var w := Run(steps + more[..|more| - 1], enc);
    RunSnoc(steps, more, enc);
    if w.lane.recovery.None? { StaysClosed(w, more[|more| - 1], enc); }
  }

  /** While a recovery stays open, the connection is sent what is replayed. */
  lemma {:induction false} WhileOpenSends(steps: seq<Step>, more: seq<Step>, enc: Encoder)
    requires Run(steps, enc).lane.recovery.Some? && Run(steps + more, enc).lane.recovery.Some? && Undisturbed(more)
    ensures var w0, w := Run(steps, enc), Run(steps + more, enc);
            && EventsIn(w.lane.frames) == EventsIn(w0.lane.frames) + ReplayedIn(more) && w.since == w0.since
  {
    if more == [] {
      assert steps + more == steps;
    } else {
      var front, last := more[..|more| - 1], more[|more| - 1];
      WasOpen(steps, more, enc);
      WhileOpenSends(steps, front, enc);
      RunSnoc(steps, more, enc);
      OpenStepSends(Run(steps + front, enc), last, enc);
      Reassociate(EventsIn(Run(steps, enc).lane.frames), ReplayedIn(front), ReplayedIn([last]));
      ReplayedSnoc(front, last);
      assert more == front + [last];
    }
  }

  /** And the session's events are held. */
  lemma {:induction false} WhileOpenHolds(steps: seq<Step>, more: seq<Step>, key: Key, enc: Encoder)
    requires Run(steps, enc).lane.recovery.Some? && Run(steps + more, enc).lane.recovery.Some?
    requires Undisturbed(more) && Targeted(more, key)
    ensures Session(Run(steps + more, enc).held, key, -1) ==
            Session(Run(steps, enc).held, key, -1) + Session(PublishedBy(steps, more, enc), key, -1)
  {
    if more == [] {
      assert steps + more == steps;
      SameTail(Published(steps, enc), PublishedBy(steps, more, enc), []);
    } else {
      var front, last := more[..|more| - 1], more[|more| - 1];
      var w := Run(steps + front, enc);
      var added := if last.Publish? then [Stamped(w, last)] else [];
      WasOpen(steps, more, enc);
      WhileOpenHolds(steps, front, key, enc);
      RunSnoc(steps, more, enc);
      OpenStepHolds(w, last, key, enc);
      PublishedBySnoc(steps, more, enc);
      SessionAppend(PublishedBy(steps, front, enc), added, key, -1);
      Reassociate(Session(Run(steps, enc).held, key, -1), Session(PublishedBy(steps, front, enc), key, -1),
                  Session(added, key, -1));
    }
  }

  lemma ReplayedSnoc(steps: seq<Step>, step: Step)
    ensures ReplayedIn(steps + [step]) == ReplayedIn(steps) + ReplayedIn([step])
  {
    assert (steps + [step])[..|steps|] == steps && [step][..0] == [];
  }

  // ---- Exactly once ----

  lemma {:induction false} PublishedUpTo(steps: seq<Step>, enc: Encoder)
    ensures forall e | e in Published(steps, enc) :: e.seqNo <= Run(steps, enc).seqNo
  {
    if steps != [] { PublishedUpTo(steps[..|steps| - 1], enc); }
  }

  lemma {:induction false} StampRises(steps: seq<Step>, more: seq<Step>, enc: Encoder)
    ensures Run(steps, enc).seqNo <= Run(steps + more, enc).seqNo
  {
    if more == [] {
      assert steps + more == steps;
    } else {
      StampRises(steps, more[..|more| - 1], enc);
      RunSnoc(steps, more, enc);
    }
  }

  lemma {:induction false} Refilter(es: seq<Event>, key: Key, above: int)
    ensures Session(Session(es, key, -1), key, above) == Session(es, key, above)
  {
    if es != [] {
      var front, last := es[..|es| - 1], es[|es| - 1];
      Refilter(front, key, above);
      SessionAppend(Session(front, key, -1), if Concerns(last, key, -1) then [last] else [], key, above);
    }
  }

  /** What the buffer answers for a cursor it can replay from, when these events were published. */
  ghost predicate Answers(replay: seq<Event>, through: EventLog.Cut, es: seq<Event>, key: Key, cursor: EventLog.Cut) {
    && replay == Session(es, key, cursor.seqNo)
    && if Session(es, key, -1) == [] then through == cursor
       else
         && cursor.seqNo <= through.seqNo
         && exists e :: e in es && Concerns(e, key, -1) && e.seqNo == through.seqNo
  }

  /** Above the answer's cut and above the cursor lie the same of the events stamped after it. */
  lemma CutOrCursor(replay: seq<Event>, through: EventLog.Cut, es: seq<Event>, key: Key, cursor: EventLog.Cut,
                    held: seq<Event>, since: nat)
    requires Answers(replay, through, es, key, cursor)
    requires (forall e | e in es :: e.seqNo <= since) && (forall e | e in held :: e.seqNo > since)
    ensures Session(held, key, through.seqNo) == Session(held, key, cursor.seqNo)
  {
    SameBound(held, key, through.seqNo, cursor.seqNo);
  }

  /** A recovery that completes hands over the session's events published since it began, above the cursor. */
  lemma OwedSinceBegin(steps: seq<Step>, during: seq<Step>, done: Step, key: Key, through: EventLog.Cut, enc: Encoder)
    requires Run(steps, enc).lane.recovery.Some? && Run(steps, enc).held == []
    requires Undisturbed(during) && Targeted(during, key) && done.Complete?
    requires CompleteOutcomeOf(Run(steps + during, enc).lane, done.id, done.applied, done.room).Completed?
    requires LookupCut(Run(steps + during, enc).lane.recovery.value.cuts, key.backendId, key.sessionId) ==
             Options.Some(through)
    requires Inv(Run(steps + during, enc), enc)
    ensures var w := Run(steps + during, enc);
            && Session(w.held, key, -1) == Session(PublishedBy(steps, during, enc), key, -1)
            && w.since == Run(steps, enc).since
            && EventsIn(Next(w, done, enc).lane.frames) ==
               EventsIn(Run(steps, enc).lane.frames)
               + (ReplayedIn(during) + OwedEvents(w.lane.recovery.value.cuts, w.held))
            && Session(OwedEvents(w.lane.recovery.value.cuts, w.held), key, -1) == Session(w.held, key, through.seqNo)
  {
    var w := Run(steps + during, enc);
    WhileOpenSends(steps, during, enc);
    WhileOpenHolds(steps, during, key, enc);
    Reassociate(Session(PublishedBy(steps, during, enc), key, -1), [], []);
    StepSends(w, done, enc);
    Reassociate(EventsIn(Run(steps, enc).lane.frames), ReplayedIn(during), Sends(w, done, enc));
    OwedOfSession(w.lane.recovery.value.cuts, w.held, key, through.seqNo);
  }

  /** The events sent to the connection since a recovery began. */
  function SentSince(begun: World, after: World): seq<Event> {
    if EventsIn(begun.lane.frames) <= EventsIn(after.lane.frames)
    then EventsIn(after.lane.frames)[|EventsIn(begun.lane.frames)|..] else []
  }

  lemma AllPublished(before: seq<Step>, between: seq<Step>, begin: Step, during: seq<Step>, enc: Encoder)
    requires begin.Begin?
    ensures var begun := before + between + [begin];
            Published(begun + during, enc) ==
            Published(before, enc) + PublishedBy(before, between, enc) + PublishedBy(begun, during, enc)
  {
    var all := before + between;
    RunSnoc(all, [begin], enc);
    assert [begin][..0] == [] && all + [] == all;
  }

  lemma EqualUnlessMore<T>(a: seq<T>, b: seq<T>, c: seq<T>)
    ensures a + c == a + b + c <==> b == []
  {
    if b == [] {
      assert a + b == a;
    } else {
      assert |a + c| < |a + b + c|;
    }
  }

  /** Everything held was stamped after the recovery began, everything published before it was not. */
  lemma BeginSeparates(before: seq<Step>, between: seq<Step>, begin: Step, enc: Encoder)
    requires begin.Begin? && begin.id != "" && Run(before + between, enc).lane.recovery.None?
    ensures var w := Run(before + between + [begin], enc);
            && w.lane.recovery.Some? && w.held == []
            && forall e | e in Published(before, enc) :: e.seqNo <= w.since
  {
    var all := before + between;
    RunSnoc(all, [begin], enc);
    assert [begin][..0] == [] && all + [] == all;
    PublishedUpTo(before, enc);
    StampRises(before, between, enc);
  }

  /**
   * Between a replay and the completion of its recovery the connection is sent, of one session, the events
   * above the cursor that were published before the replay and those published since the recovery began, each
   * once and in order. These are all exactly when none was published between the two calls.
   */
  lemma ReplayThenOwed(before: seq<Step>, between: seq<Step>, begin: Step, during: seq<Step>, done: Step, key: Key,
                       cursor: EventLog.Cut, through: EventLog.Cut, enc: Encoder)
    requires begin.Begin? && begin.id != "" && done.Complete? && Run(before + between, enc).lane.recovery.None?
    requires Undisturbed(during) && Targeted(during, key)
    requires var w := Run(before + between + [begin] + during, enc);
             && ReplaysFromBefore(before + between + [begin] + during, enc)
             && CompleteOutcomeOf(w.lane, done.id, done.applied, done.room).Completed?
             && LookupCut(w.lane.recovery.value.cuts, key.backendId, key.sessionId) == Options.Some(through)
    requires Answers(Session(ReplayedIn(during), key, -1), through, Published(before, enc), key, cursor)
    ensures var begun := before + between + [begin];
            var sent := SentSince(Run(begun, enc), Next(Run(begun + during, enc), done, enc));
            && Session(sent, key, -1) ==
               Session(Published(before, enc), key, cursor.seqNo)
               + Session(PublishedBy(begun, during, enc), key, cursor.seqNo)
            && (Session(sent, key, -1) == Session(Published(begun + during, enc), key, cursor.seqNo) <==>
                Session(PublishedBy(before, between, enc), key, cursor.seqNo) == [])
  {
    var begun := before + between + [begin];
    var w, late := Run(begun + during, enc), PublishedBy(begun, during, enc);
    var owed := OwedEvents(w.lane.recovery.value.cuts, w.held);
    BeginSeparates(before, between, begin, enc);
    SequenceRises(begun + during, enc);
    OwedSinceBegin(begun, during, done, key, through, enc);
    assert SentSince(Run(begun, enc), Next(w, done, enc)) == ReplayedIn(during) + owed;
    SessionAppend(ReplayedIn(during), owed, key, -1);
    CutOrCursor(Session(ReplayedIn(during), key, -1), through, Published(before, enc), key, cursor, w.held, w.since);
    Refilter(w.held, key, cursor.seqNo);
    Refilter(late, key, cursor.seqNo);
    AllPublished(before, between, begin, during, enc);
    var early, missed := Published(before, enc), PublishedBy(before, between, enc);
    SessionAppend(early + missed, late, key, cursor.seqNo);
    SessionAppend(early, missed, key, cursor.seqNo);
    EqualUnlessMore(Session(early, key, cursor.seqNo), Session(missed, key, cursor.seqNo),
                    Session(late, key, cursor.seqNo));
  }

  // ---- The buffer's part ----

  /** The buffer's history is what was published. */
  ghost predicate Records(history: seq<Message>, es: seq<Event>) {
    && |history| == |es|
    && (es != [] ==>
          && SameEvent(history[|es| - 1], es[|es| - 1])
          && Records(history[..|es| - 1], es[..|es| - 1]))
  }

  predicate SameEvent(m: Message, e: Event) {
    m.seqNo == e.seqNo && KeyOf(m) == Key(e.backendId, e.sessionId) && m.event == e.name && m.data == e.data
  }

  lemma RecordsSnoc(history: seq<Message>, es: seq<Event>, m: Message, e: Event)
    requires Records(history, es) && SameEvent(m, e)
    ensures Records(history + [m], es + [e])
  {
    assert (history + [m])[..|es|] == history && (es + [e])[..|es|] == es;
  }

  lemma {:induction false} RecordsAbove(history: seq<Message>, es: seq<Event>, key: Key, above: int)
    requires Records(history, es)
    ensures Records(Above(history, key, above), Session(es, key, above))
  {
    if es != [] {
      var front, m, e := history[..|es| - 1], history[|es| - 1], es[|es| - 1];
      var ms, ss := Above(front, key, above), Session(es[..|es| - 1], key, above);
      RecordsAbove(front, es[..|es| - 1], key, above);
      if Concerns(e, key, above) {
        RecordsSnoc(ms, ss, m, e);
      } else {
        assert Above(history, key, above) == ms + [] == ms && Session(es, key, above) == ss + [] == ss;
      }
    }
  }

  lemma {:induction false} RecordedAt(history: seq<Message>, es: seq<Event>, i: nat)
    requires Records(history, es) && i < |es|
    ensures SameEvent(history[i], es[i])
  {
    if i < |es| - 1 { RecordedAt(history[..|es| - 1], es[..|es| - 1], i); }
  }

  lemma {:induction false} KnownIff(history: seq<Message>, es: seq<Event>, key: Key)
    requires Records(history, es)
    ensures Known(history, key) <==> Session(es, key, -1) != []
  {
    if es != [] {
      var front, m := history[..|es| - 1], history[|es| - 1];
      KnownIff(front, es[..|es| - 1], key);
      assert forall x :: x in history <==> x in front || x == m;
    }
  }

  /** One session of a hello: the buffer's answer, and the cut the recovery is to begin with. */
  method ReplaySession(buffer: Buffers.Buffer, key: Key, cursor: EventLog.Cut, now: int, ghost es: seq<Event>)
    returns (answer: Buffers.ReplayResult)
    requires buffer.Valid() && Records(buffer.history, es)
    modifies buffer`records, buffer`chargedBytes, buffer`evictedThrough
    ensures buffer.Valid() && buffer.history == old(buffer.history)
    ensures answer.Available? ==>
      && Records(answer.events, Session(es, key, cursor.seqNo))
      && Answers(Session(es, key, cursor.seqNo), answer.through, es, key, cursor)
  {
    answer := buffer.Replay(key.backendId, key.sessionId, cursor, now);
    RecordsAbove(buffer.history, es, key, cursor.seqNo);
    KnownIff(buffer.history, es, key);
    if Known(buffer.history, key) && answer.Available? {
      ghost var m :| m in buffer.history && KeyOf(m) == key && CutOf(m) == buffer.latest[key];
      ghost var i :| 0 <= i < |buffer.history| && buffer.history[i] == m;
      RecordedAt(buffer.history, es, i);
      assert es[i] in es && Concerns(es[i], key, -1);
    }
  }
}
