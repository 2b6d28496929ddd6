/**
 * Batching of text and reasoning deltas: chunks accumulate per subscription key and go out merged, a control
 * event flushes its key and follows. Seen character by character, each key's stream is the one that was sent.
 */
module DeltaBatching {
  import opened Options
  import opened Sequences

  const MAX_PENDING_BYTES: nat := 256 * 1024

  datatype Key = Key(backendId: string, sessionId: string, directory: string)

  /** Where an event goes: broadcast, to named connections, to connections waited for, or offline only. */
  datatype Routing = Routing(broadcast: bool, targets: seq<nat>, waitTargets: seq<nat>, offline: bool)

  /** A payload as the extractors read it; `rest` stands for the fields they do not look at. */
  datatype Data = Data(delta: string, itemId: string, turnId: string, rest: string)

  datatype Event = Event(key: Key, name: string, data: Data, routing: Routing)

  datatype Chunk = Chunk(name: string, text: string, itemId: string, turnId: string)

  datatype Accum = Accum(routing: Routing, chunks: seq<Chunk>, totalBytes: nat)

  datatype Batcher = Batcher(accums: map<Key, Accum>, published: seq<Event>)

  const EMPTY := Batcher(map[], [])

  predicate IsDelta(e: Event) {
    (e.name == "text_delta" || e.name == "reasoning_delta") && e.data.delta != ""
  }

  /** The length of a string in UTF-8. */
  function Bytes(s: string): nat {
    if s == "" then 0
    else
      var c := s[|s| - 1] as int;
      Bytes(s[..|s| - 1]) + if c < 0x80 then 1 else if c < 0x800 then 2 else if c < 0x10000 then 3 else 4
  }

  predicate Joins(last: Chunk, e: Event) {
    last.name == e.name && last.itemId == e.data.itemId && last.turnId == e.data.turnId
  }

  function AddChunk(chunks: seq<Chunk>, e: Event): seq<Chunk> {
    var n := |chunks|;
    if n > 0 && Joins(chunks[n - 1], e) then chunks[n - 1 := chunks[n - 1].(text := chunks[n - 1].text + e.data.delta)]
    else chunks + [Chunk(e.name, e.data.delta, e.data.itemId, e.data.turnId)]
  }

  function Accumulate(b: Batcher, e: Event): Batcher {
    var a := GetOr(b.accums, e.key, Accum(e.routing, [], 0));
    b.(accums := b.accums[e.key := Accum(a.routing, AddChunk(a.chunks, e), a.totalBytes + Bytes(e.data.delta))])
  }

  function EventOf(key: Key, routing: Routing, c: Chunk): Event {
    Event(key, c.name, Data(c.text, c.itemId, c.turnId, ""), routing)
  }

  /** The events a key's chunks go out as; an empty chunk is left out. */
  function Emit(key: Key, routing: Routing, chunks: seq<Chunk>): seq<Event> {
    if chunks == [] then []
    else
      var last := chunks[|chunks| - 1];
      Emit(key, routing, chunks[..|chunks| - 1]) + if last.text == "" then [] else [EventOf(key, routing, last)]
  }

  function FlushKey(b: Batcher, key: Key): Batcher {
    if key !in b.accums then b
    else Batcher(b.accums - {key}, b.published + Emit(key, b.accums[key].routing, b.accums[key].chunks))
  }

  function Send(b: Batcher, e: Event): Batcher {
    if IsDelta(e) then
      var after := Accumulate(b, e);
      if after.accums[e.key].totalBytes >= MAX_PENDING_BYTES then FlushKey(after, e.key) else after
    else
      var after := FlushKey(b, e.key);
      after.(published := after.published + [e])
  }

  /** Flushes the keys one after the other, in the order the map yields them. */
  function FlushInOrder(b: Batcher, order: seq<Key>): Batcher {
    if order == [] then b else FlushKey(FlushInOrder(b, order[..|order| - 1]), order[|order| - 1])
  }

  datatype Step = SendStep(e: Event) | FlushStep(order: seq<Key>)

  function Next(b: Batcher, step: Step): Batcher {
    match step
    case SendStep(e) => Send(b, e)
    case FlushStep(order) => FlushInOrder(b, order)
  }

  function Run(steps: seq<Step>): Batcher {
    if steps == [] then EMPTY else Next(Run(steps[..|steps| - 1]), steps[|steps| - 1])
  }

  function Sent(steps: seq<Step>): seq<Event> {
    if steps == [] then []
    else Sent(steps[..|steps| - 1]) + if steps[|steps| - 1].SendStep? then [steps[|steps| - 1].e] else []
  }

  // ---- Streams seen character by character ----

  datatype Unit = Character(name: string, turnId: string, itemId: string, c: char) | Control(e: Event)

  function Spell(name: string, turnId: string, itemId: string, text: string): seq<Unit> {
    if text == "" then []
    else Spell(name, turnId, itemId, text[..|text| - 1]) + [Character(name, turnId, itemId, text[|text| - 1])]
  }

  function ExpandEvent(e: Event): seq<Unit> {
    if IsDelta(e) then Spell(e.name, e.data.turnId, e.data.itemId, e.data.delta) else [Control(e)]
  }

  /** The units of one key's events in a stream. */
  function Expand(events: seq<Event>, key: Key): seq<Unit> {
    if events == [] then []
    else
      var last := events[|events| - 1];
      Expand(events[..|events| - 1], key) + if last.key == key then ExpandEvent(last) else []
  }

  function ExpandChunks(chunks: seq<Chunk>): seq<Unit> {
    if chunks == [] then []
    else
      var last := chunks[|chunks| - 1];
      ExpandChunks(chunks[..|chunks| - 1]) + Spell(last.name, last.turnId, last.itemId, last.text)
  }

  function Buffered(b: Batcher, key: Key): seq<Unit> {
    if key in b.accums then ExpandChunks(b.accums[key].chunks) else []
  }

  /** A key's output so far, followed by what it still buffers. */
  function Stream(b: Batcher, key: Key): seq<Unit> {
    Expand(b.published, key) + Buffered(b, key)
  }

  predicate ChunkOk(c: Chunk) {
    (c.name == "text_delta" || c.name == "reasoning_delta") && c.text != ""
  }

  function ChunkBytes(chunks: seq<Chunk>): nat {
    if chunks == [] then 0 else ChunkBytes(chunks[..|chunks| - 1]) + Bytes(chunks[|chunks| - 1].text)
  }

  /** Chunks carry text, and neighbours could not have been merged. */
  predicate ChunksOk(chunks: seq<Chunk>) {
    var n := |chunks| - 1;
    n >= 0 ==> ChunkOk(chunks[n]) && ChunksOk(chunks[..n]) && (n > 0 ==> Apart(chunks[n - 1], chunks[n]))
  }

  predicate AccumOk(a: Accum) {
    a.chunks != [] && ChunksOk(a.chunks) && a.totalBytes == ChunkBytes(a.chunks)
  }

  predicate Apart(c: Chunk, d: Chunk) {
    c.name != d.name || c.itemId != d.itemId || c.turnId != d.turnId
  }

  predicate Valid(b: Batcher) {
    forall k | k in b.accums :: AccumOk(b.accums[k]) && b.accums[k].totalBytes < MAX_PENDING_BYTES
  }

  lemma {:induction false} SpellAppend(name: string, turnId: string, itemId: string, s: string, t: string)
    ensures Spell(name, turnId, itemId, s + t) == Spell(name, turnId, itemId, s) + Spell(name, turnId, itemId, t)
  {
    if t == "" {
      assert s + t == s;
    } else {
      assert (s + t)[..|s + t| - 1] == s + t[..|t| - 1];
      SpellAppend(name, turnId, itemId, s, t[..|t| - 1]);
    }
  }

  lemma {:induction false} BytesAppend(s: string, t: string)
    ensures Bytes(s + t) == Bytes(s) + Bytes(t)
  {
    if t == "" {
      assert s + t == s;
    } else {
      assert (s + t)[..|s + t| - 1] == s + t[..|t| - 1];
      BytesAppend(s, t[..|t| - 1]);
    }
  }

  lemma {:induction false} ExpandAppend(a: seq<Event>, b: seq<Event>, key: Key)
    ensures Expand(a + b, key) == Expand(a, key) + Expand(b, key)
  {
    if b == [] {
      assert a + b == a;
    } else {
      assert (a + b)[..|a + b| - 1] == a + b[..|b| - 1];
      ExpandAppend(a, b[..|b| - 1], key);
    }
  }

  /** Emitting sound chunks spells them out under their key, and nothing under another. */
  lemma {:induction false} EmitExpands(key: Key, routing: Routing, chunks: seq<Chunk>, at: Key)
    requires ChunksOk(chunks)
    ensures Expand(Emit(key, routing, chunks), at) == if at == key then ExpandChunks(chunks) else []
  {
    if chunks != [] {
      var front, last := chunks[..|chunks| - 1], chunks[|chunks| - 1];
      EmitExpands(key, routing, front, at);
      ExpandAppend(Emit(key, routing, front), [EventOf(key, routing, last)], at);
      assert Expand([EventOf(key, routing, last)], at) ==
             if at == key then ExpandEvent(EventOf(key, routing, last)) else [];
    }
  }

  lemma ChunksSnoc(chunks: seq<Chunk>, c: Chunk)
    ensures ExpandChunks(chunks + [c]) == ExpandChunks(chunks) + Spell(c.name, c.turnId, c.itemId, c.text)
    ensures ChunkBytes(chunks + [c]) == ChunkBytes(chunks) + Bytes(c.text)
  {
    assert (chunks + [c])[..|chunks|] == chunks;
  }

  /** Adding a delta to the chunks adds its characters at the end and its bytes to the count. */
  lemma AddChunkExpands(chunks: seq<Chunk>, e: Event)
    requires IsDelta(e)
    ensures ExpandChunks(AddChunk(chunks, e)) == ExpandChunks(chunks) + ExpandEvent(e)
    ensures ChunkBytes(AddChunk(chunks, e)) == ChunkBytes(chunks) + Bytes(e.data.delta)
  {
    var n := |chunks|;
    if n > 0 && Joins(chunks[n - 1], e) {
      var front, last := chunks[..n - 1], chunks[n - 1];
      var grown := last.(text := last.text + e.data.delta);
      assert chunks == front + [last] && AddChunk(chunks, e) == front + [grown];
      ChunksSnoc(front, last);
      ChunksSnoc(front, grown);
      SpellAppend(e.name, e.data.turnId, e.data.itemId, last.text, e.data.delta);
      BytesAppend(last.text, e.data.delta);
      Reassociate(ExpandChunks(front), Spell(last.name, last.turnId, last.itemId, last.text), ExpandEvent(e));
    } else {
      ChunksSnoc(chunks, Chunk(e.name, e.data.delta, e.data.itemId, e.data.turnId));
    }
  }

  lemma AddChunkKeepsOk(chunks: seq<Chunk>, e: Event)
    requires IsDelta(e) && ChunksOk(chunks)
    ensures ChunksOk(AddChunk(chunks, e)) && AddChunk(chunks, e) != []
  {
    var n, after := |chunks|, AddChunk(chunks, e);
    assert after[..|after| - 1] == if n > 0 && Joins(chunks[n - 1], e) then chunks[..n - 1] else chunks;
  }

  lemma FlushPublishes(b: Batcher, key: Key, at: Key)
    requires key in b.accums && AccumOk(b.accums[key])
    ensures Expand(FlushKey(b, key).published, at) ==
            Expand(b.published, at) + if at == key then ExpandChunks(b.accums[key].chunks) else []
  {
    var a := b.accums[key];
    EmitExpands(key, a.routing, a.chunks, at);
    ExpandAppend(b.published, Emit(key, a.routing, a.chunks), at);
  }

  lemma FlushEmpties(b: Batcher, key: Key, at: Key)
    ensures Buffered(FlushKey(b, key), at) == if at == key then [] else Buffered(b, at)
  {
  }

  /** Flushing moves what a key buffered to the end of its output. */
  lemma FlushKeyKeepsStream(b: Batcher, key: Key, at: Key)
    requires key in b.accums ==> AccumOk(b.accums[key])
    ensures Stream(FlushKey(b, key), at) == Stream(b, at) && Buffered(FlushKey(b, key), key) == []
  {
    FlushEmpties(b, key, at);
    FlushEmpties(b, key, key);
    if key in b.accums {
      FlushPublishes(b, key, at);
      DropEmpty(Expand(b.published, at), Buffered(b, at));
    }
  }

  lemma AccumulateBuffers(b: Batcher, e: Event, at: Key)
    requires IsDelta(e)
    ensures Buffered(Accumulate(b, e), at) == if at == e.key then Buffered(b, at) + ExpandEvent(e) else Buffered(b, at)
  {
    AddChunkExpands(GetOr(b.accums, e.key, Accum(e.routing, [], 0)).chunks, e);
  }

  /** A delta accumulated is added to the end of its key's stream. */
  lemma AccumulateExtendsStream(b: Batcher, e: Event, at: Key)
    requires IsDelta(e)
    ensures Stream(Accumulate(b, e), at) == Stream(b, at) + if at == e.key then ExpandEvent(e) else []
  {
    AccumulateBuffers(b, e, at);
    Reassociate(Expand(b.published, at), Buffered(b, at), if at == e.key then ExpandEvent(e) else []);
  }

  lemma AccumulatedOk(b: Batcher, e: Event)
    requires Valid(b) && IsDelta(e)
    ensures e.key in Accumulate(b, e).accums && AccumOk(Accumulate(b, e).accums[e.key])
  {
    var a := GetOr(b.accums, e.key, Accum(e.routing, [], 0));
    AddChunkKeepsOk(a.chunks, e);
    AddChunkExpands(a.chunks, e);
  }

  /** A send leaves every key under the limit and adds exactly the event to its key's stream. */
  lemma SendExtendsStream(b: Batcher, e: Event, at: Key)
    requires Valid(b)
    ensures Valid(Send(b, e))
    ensures Stream(Send(b, e), at) == Stream(b, at) + if at == e.key then ExpandEvent(e) else []
  {
    if IsDelta(e) {
      AccumulatedOk(b, e);
      AccumulateExtendsStream(b, e, at);
      FlushKeyKeepsStream(Accumulate(b, e), e.key, at);
    } else {
      FlushKeyKeepsStream(b, e.key, at);
      PublishExtendsStream(FlushKey(b, e.key), e, at);
    }
  }

  /** A control event goes out behind what its key buffered, of which nothing is left. */
  lemma PublishExtendsStream(b: Batcher, e: Event, at: Key)
    requires Buffered(b, e.key) == []
    ensures Stream(b.(published := b.published + [e]), at) == Stream(b, at) + if at == e.key then ExpandEvent(e) else []
  {
    var after := b.(published := b.published + [e]);
    ExpandSnoc(b.published, e, at);
    assert Buffered(after, at) == Buffered(b, at);
    DropEmpty(Expand(b.published, at), Buffered(b, at));
    DropEmpty(Expand(b.published, at), ExpandEvent(e));
  }

  lemma ExpandSnoc(events: seq<Event>, e: Event, at: Key)
    ensures Expand(events + [e], at) == Expand(events, at) + if at == e.key then ExpandEvent(e) else []
  {
    assert (events + [e])[..|events|] == events;
  }

  lemma {:induction false} FlushInOrderKeepsStream(b: Batcher, order: seq<Key>, at: Key)
    requires Valid(b)
    ensures Valid(FlushInOrder(b, order))
    ensures Stream(FlushInOrder(b, order), at) == Stream(b, at)
    ensures FlushInOrder(b, order).accums.Keys == b.accums.Keys - (set k | k in order)
  {
    if order != [] {
      var front, key := order[..|order| - 1], order[|order| - 1];
      FlushInOrderKeepsStream(b, front, at);
      FlushKeyKeepsStream(FlushInOrder(b, front), key, at);
      assert order == front + [key];
    }
  }

  /** For each key, what was published and what is still buffered spell exactly what was sent, in order. */
  lemma {:induction false} Transparency(steps: seq<Step>, key: Key)
    ensures Valid(Run(steps))
    ensures Stream(Run(steps), key) == Expand(Sent(steps), key)
  {
    if steps != [] {
      var front, step := steps[..|steps| - 1], steps[|steps| - 1];
      Transparency(front, key);
      match step {
        case SendStep(e) =>
          SendExtendsStream(Run(front), e, key);
          ExpandSnoc(Sent(front), e, key);
        case FlushStep(order) =>
          FlushInOrderKeepsStream(Run(front), order, key);
          assert Sent(front) + [] == Sent(front);
      }
    }
  }

  /** Once every key has been flushed, as on shutdown, nothing that was sent is missing from the output. */
  lemma NothingIsLost(steps: seq<Step>, order: seq<Key>, key: Key)
    requires forall k | k in Run(steps).accums :: k in order
    ensures var b := Run(steps + [FlushStep(order)]);
            b.accums == map[] && Expand(b.published, key) == Expand(Sent(steps), key)
  {
    var all := steps + [FlushStep(order)];
    assert all[..|all| - 1] == steps;
    Transparency(steps, key);
    FlushInOrderKeepsStream(Run(steps), order, key);
    assert Run(all).accums.Keys == {};
    assert Expand(Run(all).published, key) + [] == Expand(Run(all).published, key);
  }

  // ---- What waits, and for how long ----

  /** How many bytes of text a key has waiting. */
  function Waiting(b: Batcher, key: Key): nat {
    if key in b.accums then ChunkBytes(b.accums[key].chunks) else 0
  }

  /**
   * A delta with text waits as long as its key's waiting text, its own included, comes to less than 256 KiB; then all
   * of it goes out. Anything else goes out at once, as it is and last. No other key's buffer is looked at.
   */
  lemma WaitsIff(b: Batcher, e: Event)
    requires Valid(b)
    ensures var text := (e.name == "text_delta" || e.name == "reasoning_delta") && e.data.delta != "";
            var after := Send(b, e);
            && (text ==>
                  if Waiting(b, e.key) + Bytes(e.data.delta) < 262_144 then
                    after.published == b.published && Waiting(after, e.key) == Waiting(b, e.key) + Bytes(e.data.delta)
                  else e.key !in after.accums)
            && (!text ==>
                  && e.key !in after.accums
                  && after.published != [] && after.published[|after.published| - 1] == e)
            && forall key | key != e.key :: Lookup(after.accums, key) == Lookup(b.accums, key)
  {
    if IsDelta(e) {
      AccumulatedOk(b, e);
      AddChunkExpands(GetOr(b.accums, e.key, Accum(e.routing, [], 0)).chunks, e);
    }
  }

  // ---- Routing ----

  ghost predicate SentAs(events: seq<Event>, key: Key, routing: Routing) {
    exists i :: 0 <= i < |events| && events[i].key == key && events[i].routing == routing
  }

  /** Whatever goes out or waits does so by a routing some event of its key was sent with. */
  ghost predicate Routed(b: Batcher, sent: seq<Event>) {
    && (forall i | 0 <= i < |b.published| :: SentAs(sent, b.published[i].key, b.published[i].routing))
    && (forall k | k in b.accums :: SentAs(sent, k, b.accums[k].routing))
  }

  lemma {:induction false} EmitCarries(key: Key, routing: Routing, chunks: seq<Chunk>)
    ensures forall i | 0 <= i < |Emit(key, routing, chunks)| ::
              Emit(key, routing, chunks)[i].key == key && Emit(key, routing, chunks)[i].routing == routing
  {
    if chunks != [] { EmitCarries(key, routing, chunks[..|chunks| - 1]); }
  }

  lemma FlushKeyKeepsRouted(b: Batcher, key: Key, sent: seq<Event>)
    requires Routed(b, sent)
    ensures Routed(FlushKey(b, key), sent)
  {
    if key in b.accums { EmitCarries(key, b.accums[key].routing, b.accums[key].chunks); }
  }

  lemma {:induction false} FlushInOrderKeepsRouted(b: Batcher, order: seq<Key>, sent: seq<Event>)
    requires Routed(b, sent)
    ensures Routed(FlushInOrder(b, order), sent)
  {
    if order != [] {
      FlushInOrderKeepsRouted(b, order[..|order| - 1], sent);
      FlushKeyKeepsRouted(FlushInOrder(b, order[..|order| - 1]), order[|order| - 1], sent);
    }
  }

  lemma SentAsMore(sent: seq<Event>, e: Event, key: Key, routing: Routing)
    requires SentAs(sent, key, routing) || (e.key == key && e.routing == routing)
    ensures SentAs(sent + [e], key, routing)
  {
    if SentAs(sent, key, routing) {
      var i :| 0 <= i < |sent| && sent[i].key == key && sent[i].routing == routing;
      assert (sent + [e])[i] == sent[i];
    } else {
      assert (sent + [e])[|sent|] == e;
    }
  }

  lemma RoutedMore(b: Batcher, sent: seq<Event>, e: Event)
    requires Routed(b, sent)
    ensures Routed(b, sent + [e])
  {
    forall i | 0 <= i < |b.published| ensures SentAs(sent + [e], b.published[i].key, b.published[i].routing) {
      SentAsMore(sent, e, b.published[i].key, b.published[i].routing);
    }
    forall k | k in b.accums ensures SentAs(sent + [e], k, b.accums[k].routing) {
      SentAsMore(sent, e, k, b.accums[k].routing);
    }
  }

  lemma SendKeepsRouted(b: Batcher, sent: seq<Event>, e: Event)
    requires Routed(b, sent)
    ensures Routed(Send(b, e), sent + [e])
  {
    RoutedMore(b, sent, e);
    SentAsMore(sent, e, e.key, e.routing);
    if IsDelta(e) {
      FlushKeyKeepsRouted(Accumulate(b, e), e.key, sent + [e]);
    } else {
      FlushKeyKeepsRouted(b, e.key, sent + [e]);
    }
  }

  /** In every run each event published goes where some event of its key was sent. */
  lemma {:induction false} RoutingWasSent(steps: seq<Step>)
    ensures Routed(Run(steps), Sent(steps))
  {
    if steps != [] {
      var front, step := steps[..|steps| - 1], steps[|steps| - 1];
      RoutingWasSent(front);
      match step {
        case SendStep(e) => SendKeepsRouted(Run(front), Sent(front), e);
        case FlushStep(order) =>
          FlushInOrderKeepsRouted(Run(front), order, Sent(front));
          assert Sent(front) + [] == Sent(front);
      }
    }
  }

  /** A unit and the routing it goes by. */
  datatype RoutedUnit = RoutedUnit(unit: Unit, routing: Routing)

  function Tag(units: seq<Unit>, routing: Routing): (r: seq<RoutedUnit>)
    ensures |r| == |units| && forall i | 0 <= i < |units| :: r[i] == RoutedUnit(units[i], routing)
  {
    seq(|units|, i requires 0 <= i < |units| => RoutedUnit(units[i], routing))
  }

  function RoutedExpand(events: seq<Event>, key: Key): seq<RoutedUnit> {
    if events == [] then []
    else
      var last := events[|events| - 1];
      RoutedExpand(events[..|events| - 1], key) + if last.key == key then Tag(ExpandEvent(last), last.routing) else []
  }

  function RoutedBuffered(b: Batcher, key: Key): seq<RoutedUnit> {
    if key in b.accums then Tag(ExpandChunks(b.accums[key].chunks), b.accums[key].routing) else []
  }

  /** A key's output so far and what it still buffers, each unit with where it goes. */
  function RoutedStream(b: Batcher, key: Key): seq<RoutedUnit> {
    RoutedExpand(b.published, key) + RoutedBuffered(b, key)
  }

  /** The routing a send goes by: that of the buffer a delta joins, else its own. */
  function RouteTaken(b: Batcher, e: Event): Routing {
    if IsDelta(e) && e.key in b.accums then b.accums[e.key].routing else e.routing
  }

  /** A send goes where it was sent unless it is a delta joining a buffer opened by another routing. */
  lemma RouteTakenIff(b: Batcher, e: Event)
    ensures RouteTaken(b, e) == e.routing <==>
            (IsDelta(e) && e.key in b.accums ==> b.accums[e.key].routing == e.routing)
    ensures IsDelta(e) ==> Accumulate(b, e).accums[e.key].routing == RouteTaken(b, e)
  {
  }

  lemma TagAppend(a: seq<Unit>, b: seq<Unit>, routing: Routing)
    ensures Tag(a + b, routing) == Tag(a, routing) + Tag(b, routing)
  {
  }

  lemma RoutedExpandSnoc(events: seq<Event>, e: Event, key: Key)
    ensures RoutedExpand(events + [e], key) ==
            RoutedExpand(events, key) + if e.key == key then Tag(ExpandEvent(e), e.routing) else []
  {
    assert (events + [e])[..|events|] == events;
  }

  lemma {:induction false} RoutedExpandAppend(a: seq<Event>, b: seq<Event>, key: Key)
    ensures RoutedExpand(a + b, key) == RoutedExpand(a, key) + RoutedExpand(b, key)
  {
    if b == [] {
      assert a + b == a;
      Reassociate(RoutedExpand(a, key), [], []);
    } else {
      var front, last := b[..|b| - 1], b[|b| - 1];
      var tail := if last.key == key then Tag(ExpandEvent(last), last.routing) else [];
      assert a + b == a + front + [last] && b == front + [last];
      RoutedExpandAppend(a, front, key);
      RoutedExpandSnoc(a + front, last, key);
      RoutedExpandSnoc(front, last, key);
      Reassociate(RoutedExpand(a, key), RoutedExpand(front, key), tail);
    }
  }

  /** Chunks go out with their buffer's routing, under their key only. */
  lemma {:induction false} EmitRouted(key: Key, routing: Routing, chunks: seq<Chunk>, at: Key)
    requires ChunksOk(chunks)
    ensures RoutedExpand(Emit(key, routing, chunks), at) == if at == key then Tag(ExpandChunks(chunks), routing) else []
  {
    if chunks != [] {
      var front, last := chunks[..|chunks| - 1], chunks[|chunks| - 1];
      EmitRouted(key, routing, front, at);
      RoutedExpandSnoc(Emit(key, routing, front), EventOf(key, routing, last), at);
      TagAppend(ExpandChunks(front), Spell(last.name, last.turnId, last.itemId, last.text), routing);
    }
  }

  lemma FlushPublishesRouted(b: Batcher, key: Key, at: Key)
    requires key in b.accums && AccumOk(b.accums[key])
    ensures RoutedExpand(FlushKey(b, key).published, at) ==
            RoutedExpand(b.published, at) + if at == key then RoutedBuffered(b, key) else []
  {
    var a := b.accums[key];
    EmitRouted(key, a.routing, a.chunks, at);
    RoutedExpandAppend(b.published, Emit(key, a.routing, a.chunks), at);
  }

  lemma FlushEmptiesRouted(b: Batcher, key: Key, at: Key)
    ensures RoutedBuffered(FlushKey(b, key), at) == if at == key then [] else RoutedBuffered(b, at)
  {
  }

  lemma FlushKeepsRoutedStream(b: Batcher, key: Key, at: Key)
    requires key in b.accums ==> AccumOk(b.accums[key])
    ensures RoutedStream(FlushKey(b, key), at) == RoutedStream(b, at)
    ensures RoutedBuffered(FlushKey(b, key), key) == []
  {
    FlushEmptiesRouted(b, key, at);
    FlushEmptiesRouted(b, key, key);
    if key in b.accums {
      FlushPublishesRouted(b, key, at);
      DropEmpty(RoutedExpand(b.published, at), RoutedBuffered(b, at));
    }
  }

  /** What an event sent adds to a key's stream when it goes by a routing. */
  function Added(e: Event, routing: Routing, at: Key): seq<RoutedUnit> {
    if at == e.key then Tag(ExpandEvent(e), routing) else []
  }

  lemma TagNothing(routing: Routing)
    ensures Tag([], routing) == []
  {
  }

  /** The buffer a delta joins, or an empty one opened by it. */
  function Joined(b: Batcher, e: Event): Accum {
    GetOr(b.accums, e.key, Accum(e.routing, [], 0))
  }

  lemma JoinedIsBuffered(b: Batcher, e: Event)
    requires IsDelta(e)
    ensures RoutedBuffered(b, e.key) == Tag(ExpandChunks(Joined(b, e).chunks), RouteTaken(b, e))
  {
    TagNothing(e.routing);
  }

  lemma AccumulateBuffersRouted(b: Batcher, e: Event)
    requires IsDelta(e)
    ensures RoutedBuffered(Accumulate(b, e), e.key) == RoutedBuffered(b, e.key) + Tag(ExpandEvent(e), RouteTaken(b, e))
  {
    var chunks := Joined(b, e).chunks;
    AddChunkExpands(chunks, e);
    TagAppend(ExpandChunks(chunks), ExpandEvent(e), RouteTaken(b, e));
    JoinedIsBuffered(b, e);
    assert Accumulate(b, e).accums[e.key].chunks == AddChunk(chunks, e);
  }

  lemma AccumulateRouted(b: Batcher, e: Event, at: Key)
    requires IsDelta(e)
    ensures RoutedStream(Accumulate(b, e), at) == RoutedStream(b, at) + Added(e, RouteTaken(b, e), at)
  {
    if at == e.key {
      AccumulateBuffersRouted(b, e);
      Reassociate(RoutedExpand(b.published, at), RoutedBuffered(b, at), Tag(ExpandEvent(e), RouteTaken(b, e)));
    } else {
      assert RoutedBuffered(Accumulate(b, e), at) == RoutedBuffered(b, at);
      Reassociate(RoutedStream(b, at), [], []);
    }
  }

  lemma PublishRouted(b: Batcher, e: Event, at: Key)
    requires RoutedBuffered(b, e.key) == []
    ensures RoutedStream(b.(published := b.published + [e]), at) == RoutedStream(b, at) + Added(e, e.routing, at)
  {
    RoutedExpandSnoc(b.published, e, at);
    assert RoutedBuffered(b.(published := b.published + [e]), at) == RoutedBuffered(b, at);
    Reassociate(RoutedExpand(b.published, at), Tag(ExpandEvent(e), e.routing), []);
    Reassociate(RoutedStream(b, at), [], []);
  }

  lemma SendControlRouted(b: Batcher, e: Event, at: Key)
    requires Valid(b) && !IsDelta(e)
    ensures RoutedStream(Send(b, e), at) == RoutedStream(b, at) + Added(e, e.routing, at)
  {
    FlushKeepsRoutedStream(b, e.key, at);
    PublishRouted(FlushKey(b, e.key), e, at);
  }

  /** A send adds its units to its key's stream by the routing it takes. */
  lemma SendRouted(b: Batcher, e: Event, at: Key)
    requires Valid(b)
    ensures RoutedStream(Send(b, e), at) == RoutedStream(b, at) + Added(e, RouteTaken(b, e), at)
  {
    if IsDelta(e) {
      AccumulatedOk(b, e);
      AccumulateRouted(b, e, at);
      FlushKeepsRoutedStream(Accumulate(b, e), e.key, at);
    } else {
      SendControlRouted(b, e, at);
    }
  }

  lemma {:induction false} FlushInOrderKeepsRoutedStream(b: Batcher, order: seq<Key>, at: Key)
    requires Valid(b)
    ensures RoutedStream(FlushInOrder(b, order), at) == RoutedStream(b, at)
  {
    if order != [] {
      var front, key := order[..|order| - 1], order[|order| - 1];
      FlushInOrderKeepsRoutedStream(b, front, at);
      FlushInOrderKeepsStream(b, front, at);
      FlushKeepsRoutedStream(FlushInOrder(b, front), key, at);
    }
  }

  /** No delta of the key ever joined a buffer opened by another routing. */
  predicate NeverRerouted(steps: seq<Step>, key: Key) {
    steps != [] ==>
      var front, step := steps[..|steps| - 1], steps[|steps| - 1];
      && NeverRerouted(front, key)
      && (step.SendStep? && step.e.key == key ==> RouteTaken(Run(front), step.e) == step.e.routing)
  }

  lemma SpellSomething(name: string, turnId: string, itemId: string, text: string)
    requires text != ""
    ensures Spell(name, turnId, itemId, text) != []
  {
  }

  /** The same units by two routings are the same exactly when the routings are. */
  lemma TagsDiffer(e: Event, r: Routing, q: Routing)
    ensures Tag(ExpandEvent(e), r) == Tag(ExpandEvent(e), q) <==> r == q
  {
    if IsDelta(e) { SpellSomething(e.name, e.data.turnId, e.data.itemId, e.data.delta); }
    assert |ExpandEvent(e)| > 0;
    assert Tag(ExpandEvent(e), r)[0].routing == r && Tag(ExpandEvent(e), q)[0].routing == q;
  }

  lemma SameLengthsSplit(a: seq<RoutedUnit>, x: seq<RoutedUnit>, b: seq<RoutedUnit>, y: seq<RoutedUnit>)
    requires |a| == |b| && |x| == |y|
    ensures a + x == b + y <==> a == b && x == y
  {
    if a + x == b + y {
      assert a == (a + x)[..|a|] && b == (b + y)[..|b|];
      assert x == (a + x)[|a|..] && y == (b + y)[|b|..];
    }
  }

  /**
   * For each key, what was published and what is buffered, unit by unit with its routing, is what was sent
   * exactly when no delta of the key joined a buffer opened by another routing.
   */
  lemma {:induction false} RoutingKeptIff(steps: seq<Step>, key: Key)
    ensures RoutedStream(Run(steps), key) == RoutedExpand(Sent(steps), key) <==> NeverRerouted(steps, key)
    ensures |RoutedStream(Run(steps), key)| == |RoutedExpand(Sent(steps), key)|
  {
    if steps == [] {
      assert RoutedStream(EMPTY, key) == [];
    } else {
      var front, step := steps[..|steps| - 1], steps[|steps| - 1];
      RoutingKeptIff(front, key);
      Transparency(front, key);
      match step {
        case SendStep(e) =>
          SendRouted(Run(front), e, key);
          RoutedExpandSnoc(Sent(front), e, key);
          if e.key == key {
            TagsDiffer(e, RouteTaken(Run(front), e), e.routing);
            SameLengthsSplit(RoutedStream(Run(front), key), Tag(ExpandEvent(e), RouteTaken(Run(front), e)),
                             RoutedExpand(Sent(front), key), Tag(ExpandEvent(e), e.routing));
          } else {
            Reassociate(RoutedStream(Run(front), key), [], []);
            Reassociate(RoutedExpand(Sent(front), key), [], []);
          }
        case FlushStep(order) =>
          FlushInOrderKeepsRoutedStream(Run(front), order, key);
          assert Sent(front) + [] == Sent(front);
      }
    }
  }

  /** Merging keeps the first event's routing: a second delta of the batch sent elsewhere goes there no more. */
  lemma LaterRoutingIsLost(key: Key, r1: Routing, r2: Routing)
    ensures var one := Event(key, "text_delta", Data("a", "i", "t", ""), r1);
            var two := Event(key, "text_delta", Data("b", "i", "t", ""), r2);
            FlushKey(Send(Send(EMPTY, one), two), key).published ==
            [Event(key, "text_delta", Data("ab", "i", "t", ""), r1)]
  {
    var one := Event(key, "text_delta", Data("a", "i", "t", ""), r1);
    var two := Event(key, "text_delta", Data("b", "i", "t", ""), r2);
    assert Bytes("a") == 1 && Bytes("b") == 1;
    assert Send(EMPTY, one).accums[key] == Accum(r1, [Chunk("text_delta", "a", "i", "t")], 1);
    assert "a" + "b" == "ab";
    assert Send(Send(EMPTY, one), two).accums[key] == Accum(r1, [Chunk("text_delta", "ab", "i", "t")], 2);
    var chunks := [Chunk("text_delta", "ab", "i", "t")];
    assert chunks[..0] == [];
    assert Emit(key, r1, chunks) == Emit(key, r1, []) + [EventOf(key, r1, chunks[0])];
  }
}
