/** The batcher updated in place, one call at a time, each method tied to its function. */
module DeltaBatcher {
  import opened Options
  import opened DeltaBatching

  class Sender {
    var accums: map<Key, Accum>
    // The events handed to the publisher, in order.
    var published: seq<Event>

    ghost function Model(): Batcher
      reads this
    {
      Batcher(accums, published)
    }

    constructor ()
      ensures Model() == EMPTY
    {
      accums, published := map[], [];
    }

    /** Buffers a delta with text; anything else is not for the buffer. */
    method TryAccumulate(e: Event) returns (taken: bool)
      modifies this
      ensures taken <==> IsDelta(e)
      ensures Model() == if taken then DeltaBatching.Send(old(Model()), e) else old(Model())
    {
      if e.name != "text_delta" && e.name != "reasoning_delta" {
        return false;
      }
      if e.data.delta == "" {
        return false;
      }
      var a := GetOr(accums, e.key, Accum(e.routing, [], 0));
      var n := |a.chunks|;
      if n > 0 && a.chunks[n - 1].name == e.name
         && a.chunks[n - 1].itemId == e.data.itemId && a.chunks[n - 1].turnId == e.data.turnId {
        a := a.(chunks := a.chunks[n - 1 := a.chunks[n - 1].(text := a.chunks[n - 1].text + e.data.delta)]);
      } else {
        a := a.(chunks := a.chunks + [Chunk(e.name, e.data.delta, e.data.itemId, e.data.turnId)]);
      }
      a := a.(totalBytes := a.totalBytes + Bytes(e.data.delta));
      accums := accums[e.key := a];
      if a.totalBytes >= MAX_PENDING_BYTES {
        FlushKey(e.key);
      }
      taken := true;
    }

    method Send(e: Event)
      modifies this
      ensures Model() == DeltaBatching.Send(old(Model()), e)
    {
      var taken := TryAccumulate(e);
      if taken {
        return;
      }
      FlushKey(e.key);
      published := published + [e];
    }

    /** Detaches the key's buffer and sends its chunks. */
    method FlushKey(key: Key)
      modifies this
      ensures Model() == DeltaBatching.FlushKey(old(Model()), key)
    {
      if key !in accums {
        return;
      }
      var a := accums[key];
      accums := accums - {key};
      EmitChunks(key, a);
    }

    method EmitChunks(key: Key, a: Accum)
      modifies this`published
      ensures published == old(published) + Emit(key, a.routing, a.chunks)
    {
      for i := 0 to |a.chunks|
        invariant published == old(published) + Emit(key, a.routing, a.chunks[..i])
      {
        assert a.chunks[..i + 1][..i] == a.chunks[..i];
        if a.chunks[i].text != "" {
          published := published + [EventOf(key, a.routing, a.chunks[i])];
        }
      }
      assert a.chunks[..|a.chunks|] == a.chunks;
    }

    /** Flushes every key, in whatever order the map yields them. */
    method FlushAll() returns (order: seq<Key>)
      modifies this
      ensures Model() == FlushInOrder(old(Model()), order) && accums == map[]
      ensures forall k | k in old(accums) :: k in order
    {
      order := [];
      var rest := accums.Keys;
      while rest != {}
        invariant rest == accums.Keys && Model() == FlushInOrder(old(Model()), order)
        invariant forall k | k in old(accums) :: k in order || k in rest
        decreases rest
      {
        var key :| key in rest;
        assert (order + [key])[..|order|] == order;
        FlushKey(key);
        order := order + [key];
        rest := rest - {key};
      }
    }
  }
}
