/**
 * The bounded replay buffer: records are evicted by age, count and size, sessions are rebound in place,
 * and a replay still answers for the whole history.
 */
module EventBuffer {
  import opened Options
  import opened EventLog

  const TOMBSTONE_COST: nat := 96
  const DEFAULT_MAX_EVENTS: int := 10000
  const DEFAULT_MAX_BYTES: int := 16 * 1024 * 1024
  // Times are in milliseconds.
  const DEFAULT_TTL: int := 5 * 60 * 1000

  datatype Record = Record(
    message: Message,
    backendId: string,
    sessionId: string,
    seqNo: int,
    replayable: bool,
    createdAt: int,
    payloadBytes: nat,
    chargedBytes: nat)

  datatype SnapshotReason = CursorAhead | CoverageEvicted | NonReplayableGap

  datatype ReplayResult =
    | Available(events: seq<Message>, through: Cut)
    | SnapshotRequired(through: Cut, reason: SnapshotReason)

  function Charged(records: seq<Record>): nat {
    if records == [] then 0 else Charged(records[..|records| - 1]) + records[|records| - 1].chargedBytes
  }

  lemma {:induction false} ChargedAppend(a: seq<Record>, b: seq<Record>)
    ensures Charged(a + b) == Charged(a) + Charged(b)
  {
    if b == [] {
      assert a + b == a;
    } else {
      assert (a + b)[..|a + b| - 1] == a + b[..|b| - 1];
      ChargedAppend(a, b[..|b| - 1]);
    }
  }

  lemma ChargedDropFirst(records: seq<Record>)
    requires records != []
    ensures Charged(records) == records[0].chargedBytes + Charged(records[1..])
  {
    assert records == [records[0]] + records[1..];
    ChargedAppend([records[0]], records[1..]);
    assert [records[0]][..0] == [];
  }

  // A tombstone keeps a message's identity without its content.
  function Retained(m: Message): Message {
    if m.replayable then m else m.(data := "")
  }

  /** A record stands for a message of the log. */
  predicate StandsFor(r: Record, m: Message) {
    && r.backendId == m.backendId && r.sessionId == m.sessionId && r.seqNo == m.seqNo
    && r.replayable == m.replayable && r.message == Retained(m)
  }

  predicate Within(records: seq<Record>, maxEvents: int, maxBytes: int) {
    |records| <= maxEvents && Charged(records) <= maxBytes
  }

  /** The records without the leading ones that have reached the time to live. */
  function Unexpired(records: seq<Record>, now: int, ttl: int): seq<Record> {
    if records != [] && now - records[0].createdAt >= ttl then Unexpired(records[1..], now, ttl) else records
  }

  /** Those dropped have all reached it, and the first one left has not. */
  lemma {:induction false} UnexpiredIsSuffix(records: seq<Record>, now: int, ttl: int)
    ensures var left := Unexpired(records, now, ttl);
            && |left| <= |records|
            && (forall i | 0 <= i < |records| - |left| :: now - records[i].createdAt >= ttl)
            && (left != [] ==> now - left[0].createdAt < ttl)
  {
    if records != [] && now - records[0].createdAt >= ttl {
      UnexpiredIsSuffix(records[1..], now, ttl);
    }
  }

  /** What is kept of the records: their longest suffix within both limits. */
  ghost predicate LongestWithin(all: seq<Record>, kept: seq<Record>, maxEvents: int, maxBytes: int) {
    && |kept| <= |all| && kept == all[|all| - |kept|..] && Within(kept, maxEvents, maxBytes)
    && forall i | 0 <= i < |all| - |kept| :: !Within(all[i..], maxEvents, maxBytes)
  }

  /** Record by record of the same age and charge. */
  predicate AgedAlike(a: seq<Record>, b: seq<Record>) {
    && |a| == |b|
    && forall i | 0 <= i < |a| ::
         && a[i].createdAt == b[i].createdAt
         && a[i].chargedBytes == b[i].chargedBytes && a[i].payloadBytes == b[i].payloadBytes
  }

  /** The record of a message: a replayable one at its own cost, any other as a tombstone. */
  function RecordOf(m: Message, encodedBytes: nat, now: int): Record {
    if m.replayable then Record(m, m.backendId, m.sessionId, m.seqNo, true, now, encodedBytes, encodedBytes)
    else Record(m.(data := ""), m.backendId, m.sessionId, m.seqNo, false, now, 0, 96)
  }

  // ---- What the fields say about the history ----

  /** The records stand for the last messages of the history, in order. */
  ghost predicate Retains(records: seq<Record>, history: seq<Message>) {
    && |records| <= |history|
    && (records != [] ==>
          && StandsFor(records[|records| - 1], history[|history| - 1])
          && Retains(records[..|records| - 1], history[..|history| - 1]))
  }

  /** Record by record, counted from the first one retained. */
  lemma {:induction false} RetainsAt(records: seq<Record>, history: seq<Message>, i: nat)
    requires Retains(records, history) && i < |records|
    ensures StandsFor(records[i], history[|history| - |records| + i])
  {
    if i < |records| - 1 {
      RetainsAt(records[..|records| - 1], history[..|history| - 1], i);
    }
  }

  /** `evictedThrough` is the highest sequence number of each session among the messages gone. */
  ghost predicate EvictionOk(evictedThrough: map<Key, int>, gone: seq<Message>) {
    forall key :: GetOr(evictedThrough, key, 0) == MaxSeq(gone, key)
  }

  /** Exactly the sessions of the history have a latest cut, and it is the cut of one of their messages. */
  ghost predicate LatestOk(latest: map<Key, Cut>, history: seq<Message>) {
    && (forall key :: key in latest <==> Known(history, key))
    && (forall key | key in latest :: exists m :: m in history && KeyOf(m) == key && CutOf(m) == latest[key])
    && (Rising(history) ==> forall m | m in history :: KeyOf(m) in latest && m.seqNo <= latest[KeyOf(m)].seqNo)
  }

  lemma {:induction false} RetainsDropFirst(records: seq<Record>, history: seq<Message>)
    requires Retains(records, history) && records != []
    ensures Retains(records[1..], history)
  {
    var n := |records| - 1;
    if n > 0 {
      RetainsDropFirst(records[..n], history[..|history| - 1]);
      assert records[..n][1..] == records[1..][..n - 1];
    }
  }

  lemma RetainsAppend(records: seq<Record>, history: seq<Message>, r: Record, m: Message)
    requires Retains(records, history) && StandsFor(r, m)
    ensures Retains(records + [r], history + [m])
  {
    var rs, ms := records + [r], history + [m];
    assert rs[..|rs| - 1] == records && ms[..|ms| - 1] == history;
    assert rs[|rs| - 1] == r && ms[|ms| - 1] == m;
  }

  lemma ChargedSnoc(records: seq<Record>, r: Record)
    ensures Charged(records + [r]) == Charged(records) + r.chargedBytes
  {
    assert (records + [r])[..|records|] == records;
  }

  lemma PrefixOfSnoc(history: seq<Message>, m: Message, n: int)
    requires 0 <= n <= |history|
    ensures (history + [m])[..n] == history[..n]
  {
  }

  lemma EvictOne(evictedThrough: map<Key, int>, history: seq<Message>, n: nat, r: Record)
    requires n < |history| && EvictionOk(evictedThrough, history[..n]) && StandsFor(r, history[n])
    ensures var key := Key(r.backendId, r.sessionId);
            EvictionOk(if r.seqNo > GetOr(evictedThrough, key, 0) then evictedThrough[key := r.seqNo]
                       else evictedThrough,
                       history[..n + 1])
  {
    assert history[..n + 1][..n] == history[..n];
    var key := Key(r.backendId, r.sessionId);
    var next := if r.seqNo > GetOr(evictedThrough, key, 0) then evictedThrough[key := r.seqNo] else evictedThrough;
    forall k ensures GetOr(next, k, 0) == MaxSeq(history[..n + 1], k) {
      assert GetOr(evictedThrough, k, 0) == MaxSeq(history[..n], k);
      assert history[..n + 1][n] == history[n];
    }
  }

  lemma KnownSnoc(h: seq<Message>, m: Message, key: Key)
    ensures Known(h + [m], key) <==> Known(h, key) || KeyOf(m) == key
  {
    var h' := h + [m];
    assert h'[|h|] == m && forall x :: x in h' <==> x in h || x == m;
    if Known(h, key) {
      var x :| x in h && KeyOf(x) == key;
      assert x in h';
    }
  }

  lemma RisingSnoc(h: seq<Message>, m: Message)
    requires Rising(h + [m])
    ensures Rising(h) && forall x | x in h :: x.seqNo < m.seqNo
  {
    var h' := h + [m];
    assert h'[|h|] == m && forall i | 0 <= i < |h| :: h'[i] == h[i];
  }

  lemma LatestAppended(latest: map<Key, Cut>, h: seq<Message>, m: Message)
    requires LatestOk(latest, h)
    ensures LatestOk(latest[KeyOf(m) := CutOf(m)], h + [m])
  {
    var h', latest' := h + [m], latest[KeyOf(m) := CutOf(m)];
    forall key ensures key in latest' <==> Known(h', key) {
      KnownSnoc(h, m, key);
    }
    forall key | key in latest' ensures exists x :: x in h' && KeyOf(x) == key && CutOf(x) == latest'[key] {
      SnocHasCut(latest, h, m, key);
    }
    if Rising(h') {
      RisingSnoc(h, m);
      assert forall x :: x in h' <==> x in h || x == m;
    }
  }

  lemma SnocHasCut(latest: map<Key, Cut>, h: seq<Message>, m: Message, key: Key)
    requires key == KeyOf(m) || (key in latest && exists x :: x in h && KeyOf(x) == key && CutOf(x) == latest[key])
    ensures exists x :: x in h + [m] && KeyOf(x) == key && CutOf(x) == latest[KeyOf(m) := CutOf(m)][key]
  {
    if key == KeyOf(m) {
      assert m in h + [m];
    } else {
      var x :| x in h && KeyOf(x) == key && CutOf(x) == latest[key];
      assert x in h + [m];
    }
  }

  function RebindLatest(latest: map<Key, Cut>, from: Key, to: Key): map<Key, Cut> {
    if from !in latest then latest
    else if to !in latest || latest[from].seqNo > latest[to].seqNo then latest[to := latest[from]] - {from}
    else latest - {from}
  }

  /** A cut found under one key is found, after the rebind, under the key its message moved to. */
  lemma ReboundHasCut(h: seq<Message>, from: Key, to: Key, origin: Key, cut: Cut)
    requires from != to && exists m :: m in h && KeyOf(m) == origin && CutOf(m) == cut
    ensures exists m ::
              m in RebindLog(h, from, to) && KeyOf(m) == (if origin == from then to else origin) && CutOf(m) == cut
  {
    var x :| x in h && KeyOf(x) == origin && CutOf(x) == cut;
    var i :| 0 <= i < |h| && h[i] == x;
    assert RebindLog(h, from, to)[i] in RebindLog(h, from, to);
  }

  lemma RebindFindsLatest(latest: map<Key, Cut>, h: seq<Message>, from: Key, to: Key, key: Key)
    requires from != to && LatestOk(latest, h) && key in RebindLatest(latest, from, to)
    ensures exists m ::
              m in RebindLog(h, from, to) && KeyOf(m) == key && CutOf(m) == RebindLatest(latest, from, to)[key]
  {
    var cut := RebindLatest(latest, from, to)[key];
    var origin := if key == to && from in latest && cut == latest[from] then from else key;
    assert origin in latest && latest[origin] == cut;
    ReboundHasCut(h, from, to, origin, cut);
  }

  lemma RebindKeepsOrder(h: seq<Message>, from: Key, to: Key)
    requires Rising(RebindLog(h, from, to))
    ensures Rising(h)
  {
    var h' := RebindLog(h, from, to);
    forall i, j | 0 <= i < j < |h| ensures h[i].seqNo < h[j].seqNo {
      assert h'[i].seqNo < h'[j].seqNo;
    }
  }

  lemma RebindKeepsMaximum(latest: map<Key, Cut>, h: seq<Message>, from: Key, to: Key, m: Message)
    requires from != to && m in RebindLog(h, from, to)
    requires forall x | x in h :: KeyOf(x) in latest && x.seqNo <= latest[KeyOf(x)].seqNo
    ensures KeyOf(m) in RebindLatest(latest, from, to) && m.seqNo <= RebindLatest(latest, from, to)[KeyOf(m)].seqNo
  {
    var h' := RebindLog(h, from, to);
    var i :| 0 <= i < |h'| && h'[i] == m;
    assert h[i] in h && KeyOf(h[i]) in latest && h[i].seqNo <= latest[KeyOf(h[i])].seqNo;
  }

  lemma RebindKnows(latest: map<Key, Cut>, h: seq<Message>, from: Key, to: Key, key: Key)
    requires from != to && (from in latest <==> Known(h, from)) && (key in latest <==> Known(h, key))
    ensures Known(RebindLog(h, from, to), key) <==> key in RebindLatest(latest, from, to)
  {
    KnownRebound(h, from, to, key);
    var after := RebindLatest(latest, from, to);
    if key == from {
      assert key !in after;
    } else {
      assert key in after <==> key in latest || (key == to && from in latest);
    }
  }

  lemma LatestRebound(latest: map<Key, Cut>, h: seq<Message>, from: Key, to: Key)
    requires from != to && LatestOk(latest, h)
    ensures LatestOk(RebindLatest(latest, from, to), RebindLog(h, from, to))
  {
    var h', latest' := RebindLog(h, from, to), RebindLatest(latest, from, to);
    forall key ensures key in latest' <==> Known(h', key) {
      RebindKnows(latest, h, from, to, key);
    }
    forall key | key in latest' ensures exists m :: m in h' && KeyOf(m) == key && CutOf(m) == latest'[key] {
      RebindFindsLatest(latest, h, from, to, key);
    }
    if Rising(h') {
      RebindKeepsOrder(h, from, to);
      forall m | m in h' ensures KeyOf(m) in latest' && m.seqNo <= latest'[KeyOf(m)].seqNo {
        RebindKeepsMaximum(latest, h, from, to, m);
      }
    }
  }

  function RebindEvicted(evictedThrough: map<Key, int>, from: Key, to: Key): map<Key, int> {
    if GetOr(evictedThrough, from, 0) > GetOr(evictedThrough, to, 0)
    then evictedThrough[to := GetOr(evictedThrough, from, 0)] - {from}
    else evictedThrough - {from}
  }

  lemma EvictedRebound(evictedThrough: map<Key, int>, gone: seq<Message>, from: Key, to: Key)
    requires from != to && EvictionOk(evictedThrough, gone)
    ensures EvictionOk(RebindEvicted(evictedThrough, from, to), RebindLog(gone, from, to))
  {
    forall key
      ensures GetOr(RebindEvicted(evictedThrough, from, to), key, 0) == MaxSeq(RebindLog(gone, from, to), key)
    {
      MaxSeqRebound(gone, from, to, key);
    }
  }

  lemma PrefixRebound(history: seq<Message>, n: int, from: Key, to: Key)
    requires 0 <= n <= |history|
    ensures RebindLog(history, from, to)[..n] == RebindLog(history[..n], from, to)
  {
  }

  lemma CoverageDecides(evictedThrough: map<Key, int>, gone: seq<Message>, key: Key, cursor: int)
    requires EvictionOk(evictedThrough, gone)
    ensures GetOr(evictedThrough, key, 0) > cursor <==> cursor < 0 || HasAbove(gone, key, cursor)
  {
    if cursor >= 0 {
      MaxSeqDecides(gone, key, cursor);
    }
  }

  lemma RetainedPartDecides(history: seq<Message>, evicted: nat, key: Key, cursor: int)
    requires evicted <= |history| && !HasAbove(history[..evicted], key, cursor)
    ensures HasGapAbove(history, key, cursor) <==> HasGapAbove(history[evicted..], key, cursor)
    ensures Above(history, key, cursor) == Above(history[evicted..], key, cursor)
  {
    var gone, kept := history[..evicted], history[evicted..];
    assert history == gone + kept;
    AboveAppend(gone, kept, key, cursor);
    AboveNothing(gone, key, cursor);
    assert forall m :: m in history <==> m in gone || m in kept;
  }

  /** With rising sequence numbers, a cursor is ahead exactly when it is beyond every message of the session. */
  lemma AheadMeansBeyondAll(latest: map<Key, Cut>, history: seq<Message>, key: Key, cursor: int)
    requires LatestOk(latest, history) && Rising(history) && key in latest
    ensures cursor > latest[key].seqNo <==> forall m | m in history && KeyOf(m) == key :: m.seqNo < cursor
  {
  }

  class Buffer {
    const maxEvents: int
    const maxBytes: int
    const ttl: int
    var records: seq<Record>
    var chargedBytes: int
    var latest: map<Key, Cut>
    var evictedThrough: map<Key, int>
    // Every message ever appended, under its current session.
    ghost var history: seq<Message>

    /** How much of the history is gone from the buffer. */
    ghost function Evicted(): int
      reads this
    {
      |history| - |records|
    }

    ghost predicate RecordsOk()
      reads this
    {
      && Retains(records, history)
      && chargedBytes == Charged(records)
      && EvictionOk(evictedThrough, history[..Evicted()])
    }

    ghost predicate Valid()
      reads this
    {
      && RecordsOk() && LatestOk(latest, history)
      && Within(records, maxEvents, maxBytes) && maxEvents > 0 && maxBytes > 0 && ttl > 0
    }

    constructor (maxEvents: int, maxBytes: int, ttl: int)
      ensures Valid() && history == [] && records == []
      ensures this.maxEvents == if maxEvents <= 0 then DEFAULT_MAX_EVENTS else maxEvents
      ensures this.maxBytes == if maxBytes <= 0 then DEFAULT_MAX_BYTES else maxBytes
      ensures this.ttl == if ttl <= 0 then DEFAULT_TTL else ttl
    {
      this.maxEvents := if maxEvents <= 0 then DEFAULT_MAX_EVENTS else maxEvents;
      this.maxBytes := if maxBytes <= 0 then DEFAULT_MAX_BYTES else maxBytes;
      this.ttl := if ttl <= 0 then DEFAULT_TTL else ttl;
      records, chargedBytes, latest, evictedThrough, history := [], 0, map[], map[], [];
    }

    method EvictOldest()
      requires RecordsOk() && records != []
      modifies this`records, this`chargedBytes, this`evictedThrough
      ensures RecordsOk() && records == old(records)[1..] && chargedBytes <= old(chargedBytes)
    {
      var record := records[0];
      RetainsAt(records, history, 0);
      EvictOne(evictedThrough, history, Evicted(), record);
      ChargedDropFirst(records);
      RetainsDropFirst(records, history);
      records := records[1..];
      chargedBytes := chargedBytes - record.chargedBytes;
      var key := Key(record.backendId, record.sessionId);
      if record.seqNo > GetOr(evictedThrough, key, 0) {
        evictedThrough := evictedThrough[key := record.seqNo];
      }
    }

    /** Drops the leading records that have reached the time to live, and no others. */
    method EvictExpired(now: int)
      requires RecordsOk()
      modifies this`records, this`chargedBytes, this`evictedThrough
      ensures RecordsOk() && records == Unexpired(old(records), now, ttl) && chargedBytes <= old(chargedBytes)
      ensures |records| <= |old(records)| && records == old(records)[|old(records)| - |records|..]
      ensures forall i | 0 <= i < |old(records)| - |records| :: now - old(records)[i].createdAt >= ttl
      ensures records != [] ==> now - records[0].createdAt < ttl
    {
      while records != [] && now - records[0].createdAt >= ttl
        invariant RecordsOk() && chargedBytes <= old(chargedBytes)
        invariant |records| <= |old(records)| && records == old(records)[|old(records)| - |records|..]
        invariant forall i | 0 <= i < |old(records)| - |records| :: now - old(records)[i].createdAt >= ttl
        invariant Unexpired(records, now, ttl) == Unexpired(old(records), now, ttl)
        decreases |records|
      {
        EvictOldest();
      }
    }

    /** What expired goes before anything is answered or added. */
    method DropExpired(now: int)
      requires Valid()
      modifies this`records, this`chargedBytes, this`evictedThrough
      ensures Valid() && records == Unexpired(old(records), now, ttl)
    {
      EvictExpired(now);
    }

    /** Drops leading records until both limits hold; what stays is the longest suffix within them. */
    method EnforceLimits()
      requires RecordsOk() && maxEvents > 0 && maxBytes > 0
      modifies this`records, this`chargedBytes, this`evictedThrough
      ensures RecordsOk() && LongestWithin(old(records), records, maxEvents, maxBytes)
    {
      ghost var all, n := records, 0;
      while |records| > maxEvents || chargedBytes > maxBytes
        invariant RecordsOk() && 0 <= n <= |all| && records == all[n..]
        invariant forall i | 0 <= i < n :: !Within(all[i..], maxEvents, maxBytes)
        decreases |records|
      {
        assert !Within(records, maxEvents, maxBytes) && records != [];
        EvictOldest();
        n := n + 1;
      }
    }

    /** Appends one message; `encodedBytes` is the length of its encoding, however large. */
    method Append(message: Message, encodedBytes: nat, now: int)
      requires Valid()
      modifies this
      ensures Valid() && history == old(history) + [message]
      ensures latest == old(latest)[KeyOf(message) := CutOf(message)]
      ensures LongestWithin(Unexpired(old(records), now, ttl) + [RecordOf(message, encodedBytes, now)], records,
                            maxEvents, maxBytes)
    {
      DropExpired(now);
      var charge := if message.replayable then encodedBytes else TOMBSTONE_COST;
      var record :=
        Record(Retained(message), message.backendId, message.sessionId, message.seqNo, message.replayable, now,
                           if message.replayable then encodedBytes else 0, charge);
      LatestAppended(latest, history, message);
      AppendRecord(record, message);
      latest := latest[KeyOf(message) := CutOf(message)];
      EnforceLimits();
    }

    method AppendRecord(record: Record, ghost message: Message)
      requires RecordsOk() && StandsFor(record, message)
      modifies this`records, this`chargedBytes, this`history
      ensures RecordsOk() && records == old(records) + [record] && history == old(history) + [message]
    {
      RetainsAppend(records, history, record, message);
      ChargedSnoc(records, record);
      PrefixOfSnoc(history, message, Evicted());
      history := history + [message];
      records := records + [record];
      chargedBytes := chargedBytes + record.chargedBytes;
    }

    /**
     * Answers from the buffer as the full history would: the messages above the cursor, unless some of
     * them are gone or were never replayable, or the cursor is not one the history could have issued.
     */
    method Replay(backendId: string, sessionId: string, cursor: Cut, now: int) returns (r: ReplayResult)
      requires Valid()
      modifies this`records, this`chargedBytes, this`evictedThrough
      ensures Valid() && history == old(history)
      ensures !Known(history, Key(backendId, sessionId)) ==> r == Available([], cursor)
      ensures Known(history, Key(backendId, sessionId)) ==>
        && var key := Key(backendId, sessionId);
           && r.through == latest[key]
           && if cursor.seqNo > latest[key].seqNo then r == SnapshotRequired(latest[key], CursorAhead)
              else if cursor.seqNo < 0 || HasAbove(history[..Evicted()], key, cursor.seqNo) then
                r == SnapshotRequired(latest[key], CoverageEvicted)
              else if HasGapAbove(history, key, cursor.seqNo) then r == SnapshotRequired(latest[key], NonReplayableGap)
              else r.Available?
      ensures r.Available? ==> r.events == Above(history, Key(backendId, sessionId), cursor.seqNo)
      // Only expired records went away before the answer.
      ensures records == Unexpired(old(records), now, ttl)
      ensures forall i | 0 <= i < |old(records)| - |records| :: now - old(records)[i].createdAt >= ttl
      ensures records != [] ==> now - records[0].createdAt < ttl
    {
      DropExpired(now);
      UnexpiredIsSuffix(old(records), now, ttl);
      r := Answer(Key(backendId, sessionId), cursor);
    }

    method Answer(key: Key, cursor: Cut) returns (r: ReplayResult)
      requires RecordsOk() && (key in latest <==> Known(history, key))
      ensures key !in latest ==> r == Available([], cursor)
      ensures key in latest ==>
        && r.through == latest[key]
        && if cursor.seqNo > latest[key].seqNo then r == SnapshotRequired(latest[key], CursorAhead)
           else if cursor.seqNo < 0 || HasAbove(history[..Evicted()], key, cursor.seqNo) then
             r == SnapshotRequired(latest[key], CoverageEvicted)
           else if HasGapAbove(history, key, cursor.seqNo) then r == SnapshotRequired(latest[key], NonReplayableGap)
           else r.Available?
      ensures r.Available? ==> r.events == Above(history, key, cursor.seqNo)
    {
      if key !in latest {
        AboveUnknown(history, key, cursor.seqNo);
        return Available([], cursor);
      }
      var through := latest[key];
      if cursor.seqNo > through.seqNo {
        return SnapshotRequired(through, CursorAhead);
      }
      CoverageDecides(evictedThrough, history[..Evicted()], key, cursor.seqNo);
      if GetOr(evictedThrough, key, 0) > cursor.seqNo {
        return SnapshotRequired(through, CoverageEvicted);
      }
      RetainedPartDecides(history, Evicted(), key, cursor.seqNo);
      forall i | 0 <= i < |records| ensures StandsFor(records[i], history[Evicted()..][i]) {
        RetainsAt(records, history, i);
      }
      var events, gap := Collect(records, key, cursor.seqNo, history[Evicted()..]);
      r := if gap then SnapshotRequired(through, NonReplayableGap) else Available(events, through);
    }

    method LatestCut(backendId: string, sessionId: string, now: int) returns (cut: Option<Cut>)
      requires Valid()
      modifies this`records, this`chargedBytes, this`evictedThrough
      ensures Valid() && history == old(history) && cut == Lookup(latest, Key(backendId, sessionId))
      ensures records == Unexpired(old(records), now, ttl)
      ensures cut.Some? <==> Known(history, Key(backendId, sessionId))
    {
      DropExpired(now);
      cut := Lookup(latest, Key(backendId, sessionId));
    }

    /** Moves everything one session has, retained or evicted, to another session of the same backend. */
    method Rebind(backendId: string, oldSessionId: string, newSessionId: string)
      requires Valid()
      modifies this
      ensures Valid() && AgedAlike(records, old(records))
      ensures history ==
        if oldSessionId == "" || newSessionId == "" || oldSessionId == newSessionId then old(history)
        else RebindLog(old(history), Key(backendId, oldSessionId), Key(backendId, newSessionId))
    {
      if oldSessionId == "" || newSessionId == "" || oldSessionId == newSessionId {
        return;
      }
      var from, to := Key(backendId, oldSessionId), Key(backendId, newSessionId);
      LatestRebound(latest, history, from, to);
      EvictionRebound(evictedThrough, history, Evicted(), from, to);
      RebindFields(from, to);
    }

    method RebindFields(from: Key, to: Key)
      requires Retains(records, history) && from.backendId == to.backendId
      modifies this`records, this`latest, this`evictedThrough, this`history
      ensures AgedAlike(records, old(records)) && Retains(records, history) && Charged(records) == Charged(old(records))
      ensures history == RebindLog(old(history), from, to)
      ensures latest == RebindLatest(old(latest), from, to)
              && evictedThrough == RebindEvicted(old(evictedThrough), from, to)
    {
      RebindAllRecords(from, to);
      RebindCuts(from, to);
      RebindEvictions(from, to);
    }

    method RebindAllRecords(from: Key, to: Key)
      requires Retains(records, history) && from.backendId == to.backendId
      modifies this`records, this`history
      ensures AgedAlike(records, old(records)) && Retains(records, history) && Charged(records) == Charged(old(records))
      ensures history == RebindLog(old(history), from, to)
    {
      RetainsRebound(records, history, from, to);
      ChargedRebound(records, from, to);
      records := RebindRecords(records, from, to);
      history := RebindLog(history, from, to);
    }

    method RebindCuts(from: Key, to: Key)
      modifies this`latest
      ensures latest == RebindLatest(old(latest), from, to)
    {
      if from in latest {
        if to !in latest || latest[from].seqNo > latest[to].seqNo {
          latest := latest[to := latest[from]];
        }
        latest := latest - {from};
      }
    }

    method RebindEvictions(from: Key, to: Key)
      modifies this`evictedThrough
      ensures evictedThrough == RebindEvicted(old(evictedThrough), from, to)
    {
      var through := GetOr(evictedThrough, from, 0);
      if through > GetOr(evictedThrough, to, 0) {
        evictedThrough := evictedThrough[to := through];
      }
      evictedThrough := evictedThrough - {from};
    }
  }

  lemma GapNext(front: seq<Message>, m: Message, key: Key, cursor: int)
    ensures HasGapAbove(front + [m], key, cursor) <==>
            HasGapAbove(front, key, cursor) || (KeyOf(m) == key && m.seqNo > cursor && !m.replayable)
  {
    assert forall x :: x in front + [m] <==> x in front || x == m;
  }

  /** The scan over the retained records: stops at the first gap, else returns the messages it passed. */
  method Collect(records: seq<Record>, key: Key, cursor: int, ghost kept: seq<Message>)
    returns (events: seq<Message>, gap: bool)
    requires |records| == |kept| && forall i | 0 <= i < |records| :: StandsFor(records[i], kept[i])
    ensures gap <==> HasGapAbove(kept, key, cursor)
    ensures !gap ==> events == Above(kept, key, cursor)
  {
    events, gap := [], false;
    for i := 0 to |records|
      invariant events == Above(kept[..i], key, cursor)
      invariant !HasGapAbove(kept[..i], key, cursor)
    {
      var record := records[i];
      assert kept[..i + 1] == kept[..i] + [kept[i]] && kept[..i + 1][..i] == kept[..i];
      GapNext(kept[..i], kept[i], key, cursor);
      if record.backendId != key.backendId || record.sessionId != key.sessionId || record.seqNo <= cursor {
        continue;
      }
      if !record.replayable {
        GapAtShowsGap(kept, i, key, cursor);
        return [], true;
      }
      events := events + [record.message];
    }
    assert kept[..|records|] == kept;
  }

  lemma GapAtShowsGap(kept: seq<Message>, i: nat, key: Key, cursor: int)
    requires i < |kept| && KeyOf(kept[i]) == key && kept[i].seqNo > cursor && !kept[i].replayable
    ensures HasGapAbove(kept, key, cursor)
  {
    assert kept[i] in kept;
  }

  lemma AboveUnknown(h: seq<Message>, key: Key, cursor: int)
    requires !Known(h, key)
    ensures Above(h, key, cursor) == []
  {
    AboveNothing(h, key, cursor);
  }

  function RebindRecord(r: Record, from: Key, to: Key): Record {
    if r.backendId == from.backendId && r.sessionId == from.sessionId then
      r.(backendId := to.backendId, sessionId := to.sessionId, message := r.message.(sessionId := to.sessionId))
    else r
  }

  function Rebound(records: seq<Record>, from: Key, to: Key): (r: seq<Record>)
    ensures |r| == |records| && forall i | 0 <= i < |records| :: r[i] == RebindRecord(records[i], from, to)
  {
    seq(|records|, i requires 0 <= i < |records| => RebindRecord(records[i], from, to))
  }

  lemma ReboundStandsFor(r: Record, m: Message, from: Key, to: Key)
    requires StandsFor(r, m) && from.backendId == to.backendId
    ensures StandsFor(RebindRecord(r, from, to), RebindMessage(m, from, to))
  {
  }

  lemma {:induction false} RetainsRebound(records: seq<Record>, history: seq<Message>, from: Key, to: Key)
    requires Retains(records, history) && from.backendId == to.backendId
    ensures Retains(Rebound(records, from, to), RebindLog(history, from, to))
  {
    var n, m := |records| - 1, |history| - 1;
    if n >= 0 {
      RetainsRebound(records[..n], history[..m], from, to);
      ReboundStandsFor(records[n], history[m], from, to);
      assert Rebound(records, from, to)[..n] == Rebound(records[..n], from, to);
      PrefixRebound(history, m, from, to);
    }
  }

  lemma ChargedRebound(records: seq<Record>, from: Key, to: Key)
    ensures Charged(Rebound(records, from, to)) == Charged(records)
  {
    SameCharges(records, Rebound(records, from, to));
  }

  lemma EvictionRebound(evictedThrough: map<Key, int>, history: seq<Message>, n: int, from: Key, to: Key)
    requires 0 <= n <= |history| && EvictionOk(evictedThrough, history[..n]) && from != to
    ensures EvictionOk(RebindEvicted(evictedThrough, from, to), RebindLog(history, from, to)[..n])
  {
    EvictedRebound(evictedThrough, history[..n], from, to);
    PrefixRebound(history, n, from, to);
  }

  method RebindRecords(records: seq<Record>, from: Key, to: Key) returns (rebound: seq<Record>)
    requires from.backendId == to.backendId
    ensures rebound == Rebound(records, from, to)
  {
    rebound := records;
    for i := 0 to |records|
      invariant |rebound| == |records|
      invariant forall k | 0 <= k < |records| ::
                  rebound[k] == if k < i then RebindRecord(records[k], from, to) else records[k]
    {
      var r := records[i];
      if r.backendId == from.backendId && r.sessionId == from.sessionId {
        rebound := rebound[i := r.(backendId := to.backendId, sessionId := to.sessionId,
                                   message := r.message.(sessionId := to.sessionId))];
      }
    }
  }

  lemma {:induction false} SameCharges(a: seq<Record>, b: seq<Record>)
    requires |a| == |b| && forall i | 0 <= i < |a| :: a[i].chargedBytes == b[i].chargedBytes
    ensures Charged(a) == Charged(b)
  {
    if a != [] {
      SameCharges(a[..|a| - 1], b[..|b| - 1]);
    }
  }
}
