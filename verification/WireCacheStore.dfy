/** The cache object: the maps the critical sections update, each method under the cache's lock. */
module WireCacheStore {
  import opened Options
  import opened CatalogCursor
  import opened WirePaging
  import opened WireCache

  class Store {
    const epochOf: EpochOf
    var scopes: map<Scope, Snapshot>
    var inFlight: map<Scope, BuildId>
    var generations: map<string, nat>
    // The build records callers hold on to, in order of creation.
    var builds: seq<Build>

    ghost function Model(): Cache
      reads this
    {
      Cache(scopes, inFlight, generations, builds)
    }

    constructor (epochOf: EpochOf)
      ensures Model() == EMPTY_CACHE && this.epochOf == epochOf
    {
      this.epochOf := epochOf;
      scopes, inFlight, generations, builds := map[], map[], map[], [];
    }

    method Enter(scope: Scope, now: int) returns (r: EnterResult)
      modifies this
      ensures (Model(), r) == WireCache.Enter(old(Model()), scope, now)
    {
      if scope.backendId == "" || scope.global == (scope.directory != "") {
        return Rejected;
      }
      var generation := GetOr(generations, scope.backendId, 0);
      if scope in scopes {
        var snap := scopes[scope];
        if snap.generation == generation && !SnapshotExpired(snap.createdAt, now) {
          return Hit(snap);
        }
      }
      if scope in inFlight && inFlight[scope] < |builds| && builds[inFlight[scope]].generation == generation {
        return WaitFor(inFlight[scope]);
      }
      var id := |builds|;
      builds := builds + [Build(scope, generation, false, None, None)];
      inFlight := inFlight[scope := id];
      r := BuildNow(id);
    }

    method Finish(id: BuildId, rows: Result<seq<Row>, string>, now: int) returns (r: CheckResult)
      requires id < |builds|
      modifies this
      ensures (Model(), r) == WireCache.Finish(old(Model()), id, rows, now, epochOf)
    {
      var checked := rows;
      if rows.Ok? {
        var valid := ValidateRows(rows.value);
        if !valid {
          checked := Err("invalid catalog rows");
        }
      }
      var build := builds[id];
      var current := GetOr(generations, build.scope.backendId, 0);
      if current == build.generation {
        if checked.Ok? {
          var epoch := epochOf(Identity(build.scope), SemanticsOf(checked.value));
          var snap := Snapshot(build.scope, build.generation, epoch, now, checked.value);
          build := build.(snapshot := Some(snap));
          scopes := scopes[build.scope := snap];
        } else {
          build := build.(error := Some(checked.error));
        }
      }
      if build.scope in inFlight && inFlight[build.scope] == id {
        inFlight := inFlight - {build.scope};
      }
      builds := builds[id := build.(done := true)];
      if current != build.generation {
        return Retry;
      }
      r := Answer(if checked.Ok? then Outcome(build.snapshot, None) else Outcome(None, build.error));
    }

    method Wake(id: BuildId) returns (r: CheckResult)
      requires id < |builds|
      ensures r == WireCache.Wake(Model(), id)
    {
      var build := builds[id];
      if GetOr(generations, build.scope.backendId, 0) != build.generation {
        return Retry;
      }
      r := Answer(Outcome(build.snapshot, build.error));
    }

    method Invalidate(scope: Scope)
      modifies this`scopes
      ensures Model() == WireCache.Invalidate(old(Model()), scope)
    {
      scopes := scopes - {scope};
    }

    method Peek(scope: Scope) returns (snap: Option<Snapshot>)
      ensures snap == Lookup(scopes, scope)
    {
      snap := Lookup(scopes, scope);
    }

    /** Raises the backend's generation, drops its snapshots, and completes and drops its builds in flight. */
    method FenceBackend(backendId: string) returns (generation: nat)
      requires InFlightCurrent(Model())
      modifies this
      ensures Model() == WireCache.FenceBackend(old(Model()), backendId)
      ensures generation == GenerationOf(old(Model()), backendId) + 1
    {
      generation := GetOr(generations, backendId, 0) + 1;
      generations := generations[backendId := generation];
      DropStored(backendId);
      CompleteInFlight(backendId);
    }

    method DropStored(backendId: string)
      modifies this`scopes
      ensures scopes == map s | s in old(scopes) && s.backendId != backendId :: old(scopes)[s]
    {
      var stored := scopes.Keys;
      while stored != {}
        invariant stored <= old(scopes).Keys
        invariant scopes == map s | s in old(scopes) && (s.backendId != backendId || s in stored) :: old(scopes)[s]
        decreases stored
      {
        var scope :| scope in stored;
        stored := stored - {scope};
        if scope.backendId == backendId {
          scopes := scopes - {scope};
        }
      }
    }

    method CompleteInFlight(backendId: string)
      requires forall s | s in inFlight :: inFlight[s] < |builds|
      modifies this`inFlight, this`builds
      ensures inFlight == map s | s in old(inFlight) && s.backendId != backendId :: old(inFlight)[s]
      ensures builds == CompleteFenced(old(Model()), backendId, |old(builds)|)
    {
      var pending := inFlight.Keys;
      while pending != {}
        invariant pending <= old(inFlight).Keys && |builds| == |old(builds)|
        invariant inFlight == map s | s in old(inFlight) && (s.backendId != backendId || s in pending) ::
                    old(inFlight)[s]
        invariant forall id | 0 <= id < |builds| ::
          builds[id] ==
            if exists s :: s in old(inFlight) && s !in pending && s.backendId == backendId && old(inFlight)[s] == id
            then old(builds)[id].(done := true) else old(builds)[id]
        decreases pending
      {
        var scope :| scope in pending;
        pending := pending - {scope};
        if scope.backendId == backendId {
          var id := inFlight[scope];
          builds := builds[id := builds[id].(done := true)];
          inFlight := inFlight - {scope};
        }
      }
    }

    /** A page request without a cursor slices what the fetch returned; with one it never rebuilds. */
    method PageN(scope: Scope, cursor: Cursor, limit: int, now: int) returns (r: PageResult)
      requires !cursor.NoCursor?
      ensures r == SlicePage(Lookup(scopes, scope), cursor, limit, now)
    {
      var snap := Peek(scope);
      r := Slice(snap, cursor, limit, now);
    }
  }
}
