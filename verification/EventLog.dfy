/** The event log that never forgets: the reference the bounded replay buffer is measured against. */
module EventLog {

  datatype Key = Key(backendId: string, sessionId: string)

  datatype Cut = Cut(eventId: string, seqNo: int)

  datatype Message = Message(
    eventId: string,
    seqNo: int,
    backendId: string,
    sessionId: string,
    event: string,
    data: string,
    replayable: bool)

  function KeyOf(m: Message): Key {
    Key(m.backendId, m.sessionId)
  }

  function CutOf(m: Message): Cut {
    Cut(m.eventId, m.seqNo)
  }

  /** A session of one backend takes over another's messages. */
  function RebindMessage(m: Message, from: Key, to: Key): Message {
    if KeyOf(m) == from then m.(backendId := to.backendId, sessionId := to.sessionId) else m
  }

  function RebindLog(h: seq<Message>, from: Key, to: Key): (h': seq<Message>)
    ensures |h'| == |h| && forall i | 0 <= i < |h| :: h'[i] == RebindMessage(h[i], from, to)
  {
    if h == [] then [] else RebindLog(h[..|h| - 1], from, to) + [RebindMessage(h[|h| - 1], from, to)]
  }

  /** The messages of one session above a cursor, in order. */
  function Above(h: seq<Message>, key: Key, cursor: int): (ms: seq<Message>)
    ensures forall m | m in ms :: m in h && KeyOf(m) == key && m.seqNo > cursor
  {
    if h == [] then []
    else
      var m := h[|h| - 1];
      Above(h[..|h| - 1], key, cursor) + if KeyOf(m) == key && m.seqNo > cursor then [m] else []
  }

  /** Some message of the session above the cursor is in this part of the log. */
  predicate HasAbove(h: seq<Message>, key: Key, cursor: int) {
    exists m :: m in h && KeyOf(m) == key && m.seqNo > cursor
  }

  predicate HasGapAbove(h: seq<Message>, key: Key, cursor: int) {
    exists m :: m in h && KeyOf(m) == key && m.seqNo > cursor && !m.replayable
  }

  predicate Known(h: seq<Message>, key: Key) {
    exists m :: m in h && KeyOf(m) == key
  }

  /** Sequence numbers rise through the log, as the publisher stamps them. */
  predicate Rising(h: seq<Message>) {
    forall i, j | 0 <= i < j < |h| :: h[i].seqNo < h[j].seqNo
  }

  /** The highest sequence number of a session in this part of the log, 0 when there is none. */
  function MaxSeq(h: seq<Message>, key: Key): (n: int)
    ensures n >= 0
  {
    if h == [] then 0
    else
      var m := h[|h| - 1];
      var front := MaxSeq(h[..|h| - 1], key);
      if KeyOf(m) == key && m.seqNo > front then m.seqNo else front
  }

  /** The maximum decides whether anything above a non-negative cursor is in this part of the log. */
  lemma {:induction false} MaxSeqDecides(h: seq<Message>, key: Key, cursor: int)
    requires cursor >= 0
    ensures MaxSeq(h, key) > cursor <==> HasAbove(h, key, cursor)
  {
    if h != [] {
      var front, m := h[..|h| - 1], h[|h| - 1];
      MaxSeqDecides(front, key, cursor);
      assert forall x :: x in h <==> x in front || x == m;
    }
  }

  lemma {:induction false} AboveAppend(a: seq<Message>, b: seq<Message>, key: Key, cursor: int)
    ensures Above(a + b, key, cursor) == Above(a, key, cursor) + Above(b, key, cursor)
  {
    if b == [] {
      assert a + b == a;
    } else {
      assert (a + b)[..|a + b| - 1] == a + b[..|b| - 1];
      AboveAppend(a, b[..|b| - 1], key, cursor);
    }
  }

  lemma {:induction false} AboveNothing(h: seq<Message>, key: Key, cursor: int)
    ensures Above(h, key, cursor) == [] <==> !HasAbove(h, key, cursor)
  {
    if h != [] {
      var front, m := h[..|h| - 1], h[|h| - 1];
      AboveNothing(front, key, cursor);
      assert forall x :: x in h <==> x in front || x == m;
    }
  }

  /** Rebinding moves the maximum of the old session into the new one's. */
  lemma {:induction false} MaxSeqRebound(h: seq<Message>, from: Key, to: Key, key: Key)
    requires from != to
    ensures MaxSeq(RebindLog(h, from, to), key) ==
            if key == from then 0
            else if key == to && MaxSeq(h, from) > MaxSeq(h, to) then MaxSeq(h, from)
            else MaxSeq(h, key)
  {
    if h != [] {
      var h' := RebindLog(h, from, to);
      assert h'[..|h'| - 1] == RebindLog(h[..|h| - 1], from, to);
      MaxSeqRebound(h[..|h| - 1], from, to, key);
    }
  }

  /** What a session's history becomes when another session is rebound onto it: the two logs interleaved. */
  lemma {:induction false} KnownRebound(h: seq<Message>, from: Key, to: Key, key: Key)
    requires from != to
    ensures Known(RebindLog(h, from, to), key) <==> (key == to && Known(h, from)) || (key != from && Known(h, key))
  {
    var h' := RebindLog(h, from, to);
    if Known(h', key) {
      var m :| m in h' && KeyOf(m) == key;
      var i :| 0 <= i < |h| && h'[i] == m;
      assert h[i] in h;
    }
    if key == to && Known(h, from) {
      var m :| m in h && KeyOf(m) == from;
      var i :| 0 <= i < |h| && h[i] == m;
      assert h'[i] in h' && KeyOf(h'[i]) == to;
    }
    if key != from && Known(h, key) {
      var m :| m in h && KeyOf(m) == key;
      var i :| 0 <= i < |h| && h[i] == m;
      assert h'[i] in h' && KeyOf(h'[i]) == key;
    }
  }
}
