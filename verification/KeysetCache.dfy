/** The cache of page-0 snapshots by scope, called by one caller at a time: reuse, fetch, evict the oldest. */
module KeysetCache {
  import opened CatalogCursor
  import opened KeysetOrder
  import opened KeysetPaging
  import opened Options

  const MAX_SCOPES: nat := 32

  /** What eviction leaves: the stored entries it kept are as they were, and none it dropped is newer than one kept. */
  ghost predicate Evicted(before: map<string, Snapshot>, after: map<string, Snapshot>) {
    && |after| == (if |before| > MAX_SCOPES then MAX_SCOPES else |before|)
    && after.Keys <= before.Keys && (forall k | k in after :: after[k] == before[k])
    && forall k, j | k in before && k !in after && j in after :: before[k].createdAt <= after[j].createdAt
  }

  class SnapshotCache {
    const hash: Hash
    var scopes: map<string, Snapshot>

    ghost predicate Valid()
      reads this
    {
      |scopes| <= MAX_SCOPES && forall k | k in scopes :: SnapshotOk(scopes[k])
    }

    constructor (hash: Hash)
      ensures this.hash == hash && scopes == map[] && Valid()
    {
      this.hash := hash;
      scopes := map[];
    }

    method OldestScope() returns (oldest: string)
      requires |scopes| > 0
      ensures oldest in scopes && forall k | k in scopes :: scopes[oldest].createdAt <= scopes[k].createdAt
    {
      var rest := scopes.Keys;
      assert |rest| > 0;
      oldest :| oldest in rest;
      rest := rest - {oldest};
      while rest != {}
        invariant rest <= scopes.Keys && oldest in scopes
        invariant forall k | k in scopes && k !in rest :: scopes[oldest].createdAt <= scopes[k].createdAt
        decreases rest
      {
        var k :| k in rest;
        if scopes[k].createdAt < scopes[oldest].createdAt {
          oldest := k;
        }
        rest := rest - {k};
      }
    }

    method EvictLocked()
      modifies this`scopes
      ensures Evicted(old(scopes), scopes)
    {
      while |scopes| > MAX_SCOPES
        invariant scopes.Keys <= old(scopes).Keys && forall k | k in scopes :: scopes[k] == old(scopes)[k]
        invariant |scopes| >= if |old(scopes)| > MAX_SCOPES then MAX_SCOPES else |old(scopes)|
        invariant |scopes| <= |old(scopes)|
        invariant forall k, j | k in old(scopes) && k !in scopes && j in scopes ::
                    old(scopes)[k].createdAt <= scopes[j].createdAt
        decreases |scopes|
      {
        var oldest := OldestScope();
        assert (scopes - {oldest}).Keys == scopes.Keys - {oldest};
        assert |scopes.Keys - {oldest}| == |scopes| - 1;
        scopes := scopes - {oldest};
      }
    }

    /** A first page reuses the live snapshot of its scope, or stores the one it fetched and evicts the oldest. */
    method Page0(scope: string, limit: int, now: int, fetched: Result<seq<Row>, string>) returns (page: Page)
      requires Valid() && (fetched.Ok? ==> UniqueIds(fetched.value))
      modifies this`scopes
      ensures Valid() && |scopes| <= 32
      ensures var hit := scope in old(scopes) && !SnapshotExpired(old(scopes)[scope].createdAt, now);
              if hit then scopes == old(scopes) && page == PageAt(old(scopes)[scope], 0, EffectiveLimit(limit))
              else if fetched.Err? then scopes == old(scopes) && page == Failed(fetched.error)
              else
                && Evicted(old(scopes)[scope := Build(scope, fetched.value, now, hash)], scopes)
                && page == PageAt(Build(scope, fetched.value, now, hash), 0, EffectiveLimit(limit))
    {
      if scope in scopes && !SnapshotExpired(scopes[scope].createdAt, now) {
        return PageAt(scopes[scope], 0, EffectiveLimit(limit));
      }
      if fetched.Err? {
        return Failed(fetched.error);
      }
      var snap := Build(scope, fetched.value, now, hash);
      BuildIsOk(scope, fetched.value, now, hash);
      scopes := scopes[scope := snap];
      EvictLocked();
      page := PageAt(snap, 0, EffectiveLimit(limit));
    }

    /** A later page never fetches: a missing, expired or other snapshot makes the cursor stale. */
    method PageN(scope: string, cursor: Cursor, limit: int, now: int) returns (page: Page)
      requires !cursor.NoCursor?
      ensures page == PageWithCursor(Lookup(scopes, scope), cursor, limit, now)
    {
      if cursor.Malformed? {
        return Failed("malformed cursor");
      }
      var snap := Lookup(scopes, scope);
      var stale := ValidateCursor(cursor, ViewOf(snap), now);
      if stale.Some? {
        return Stale(stale.value, if snap.Some? then snap.value.epoch else "");
      }
      page := SlicePageN(snap.value, cursor.updatedAtMillis, cursor.sessionId, EffectiveLimit(limit));
    }
  }
}
