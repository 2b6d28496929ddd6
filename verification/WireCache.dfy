/**
 * The generation-fenced single-flight cache of catalog snapshots. Each critical section of a fetch is one
 * function on the cache; callers, builders, waiters and fences interleave between them in any order.
 */
module WireCache {
  import opened Options
  import opened CatalogCursor
  import opened WirePaging

  type BuildId = nat

  /** One build and its completion signal. Builds are only ever added, so an index names one for good. */
  datatype Build = Build(scope: Scope, generation: nat, done: bool, snapshot: Option<Snapshot>, error: Option<string>)

  datatype Cache = Cache(
    scopes: map<Scope, Snapshot>,
    inFlight: map<Scope, BuildId>,
    generations: map<string, nat>,
    builds: seq<Build>)

  const EMPTY_CACHE := Cache(map[], map[], map[], [])

  /** What a fetch hands back: a snapshot or an error, each nil-able as in the program. */
  datatype Outcome = Outcome(snapshot: Option<Snapshot>, error: Option<string>)

  datatype EnterResult = Rejected | Hit(snapshot: Snapshot) | WaitFor(waited: BuildId) | BuildNow(started: BuildId)

  datatype CheckResult = Retry | Answer(outcome: Outcome)

  function GenerationOf(c: Cache, backendId: string): nat {
    GetOr(c.generations, backendId, 0)
  }

  function Enter(c: Cache, scope: Scope, now: int): (Cache, EnterResult) {
    if !ScopeOk(scope) then (c, Rejected)
    else
      var generation := GenerationOf(c, scope.backendId);
      if scope in c.scopes && c.scopes[scope].generation == generation
        && !SnapshotExpired(c.scopes[scope].createdAt, now) then
        (c, Hit(c.scopes[scope]))
      else if scope in c.inFlight && c.inFlight[scope] < |c.builds|
        && c.builds[c.inFlight[scope]].generation == generation then
        (c, WaitFor(c.inFlight[scope]))
      else
        (c.(inFlight := c.inFlight[scope := |c.builds|],
            builds := c.builds + [Build(scope, generation, false, None, None)]),
         BuildNow(|c.builds|))
  }

  /** A builder's rows become a snapshot only when they pass validation and the generation still stands. */
  function Finish(c: Cache, id: BuildId, rows: Result<seq<Row>, string>, now: int, e: EpochOf): (Cache, CheckResult)
    requires id < |c.builds|
  {
    var b := c.builds[id];
    var checked: Result<seq<Row>, string> :=
      if rows.Ok? && !RowsOk(rows.value) then Err("invalid catalog rows") else rows;
    var inFlight := if b.scope in c.inFlight && c.inFlight[b.scope] == id then c.inFlight - {b.scope} else c.inFlight;
    if GenerationOf(c, b.scope.backendId) != b.generation then
      (c.(inFlight := inFlight, builds := c.builds[id := b.(done := true)]), Retry)
    else
      match checked
      case Ok(valid) =>
        var snap := Snapshot(b.scope, b.generation, e(Identity(b.scope), SemanticsOf(valid)), now, valid);
        (c.(scopes := c.scopes[b.scope := snap], inFlight := inFlight,
            builds := c.builds[id := b.(done := true, snapshot := Some(snap))]),
         Answer(Outcome(Some(snap), None)))
      case Err(err) =>
        (c.(inFlight := inFlight, builds := c.builds[id := b.(done := true, error := Some(err))]),
         Answer(Outcome(None, Some(err))))
  }

  /** What a waiter reads once the build it waited for has completed. */
  function Wake(c: Cache, id: BuildId): CheckResult
    requires id < |c.builds|
  {
    var b := c.builds[id];
    if GenerationOf(c, b.scope.backendId) != b.generation then Retry else Answer(Outcome(b.snapshot, b.error))
  }

  function Invalidate(c: Cache, scope: Scope): Cache {
    c.(scopes := c.scopes - {scope})
  }

  /** The builds a fence wakes: those in flight for the backend. */
  predicate Fenced(c: Cache, backendId: string, id: BuildId) {
    exists scope :: scope in c.inFlight && scope.backendId == backendId && c.inFlight[scope] == id
  }

  function CompleteFenced(c: Cache, backendId: string, n: nat): (builds: seq<Build>)
    requires n <= |c.builds|
    ensures |builds| == n
    ensures forall id | 0 <= id < n ::
      builds[id] == if Fenced(c, backendId, id) then c.builds[id].(done := true) else c.builds[id]
  {
    seq(n, id requires 0 <= id < n => if Fenced(c, backendId, id) then c.builds[id].(done := true) else c.builds[id])
  }

  function FenceBackend(c: Cache, backendId: string): Cache {
    Cache(map s | s in c.scopes && s.backendId != backendId :: c.scopes[s],
          map s | s in c.inFlight && s.backendId != backendId :: c.inFlight[s],
          c.generations[backendId := GenerationOf(c, backendId) + 1],
          CompleteFenced(c, backendId, |c.builds|))
  }

  // ---- Callers ----

  datatype Caller =
    | Idle
    | Calling(scope: Scope)
    | Waiting(scope: Scope, id: BuildId)
    | Building(scope: Scope, id: BuildId)

  /** An answer given to a caller, with the backend's generation at the moment it was checked. */
  datatype Returned = Returned(scope: Scope, outcome: Outcome, generation: nat)

  datatype World = World(cache: Cache, callers: map<nat, Caller>, returned: seq<Returned>)

  datatype Step =
    | Call(caller: nat, scope: Scope)
    | EnterStep(caller: nat, now: int)
    | FinishStep(caller: nat, rows: Result<seq<Row>, string>, now: int)
    | WakeStep(caller: nat)
    | CancelStep(caller: nat)
    | FenceStep(backendId: string)
    | InvalidateStep(scope: Scope)

  function CallerOf(w: World, k: nat): Caller {
    GetOr(w.callers, k, Idle)
  }

  function Return(w: World, k: nat, scope: Scope, outcome: Outcome): World {
    w.(callers := w.callers[k := Idle],
       returned := w.returned + [Returned(scope, outcome, GenerationOf(w.cache, scope.backendId))])
  }

  function NextWorld(w: World, step: Step, e: EpochOf): World {
    match step
    case Call(k, scope) =>
      if CallerOf(w, k).Idle? then w.(callers := w.callers[k := Calling(scope)]) else w
    case EnterStep(k, now) =>
      if !CallerOf(w, k).Calling? then w
      else
        var scope := CallerOf(w, k).scope;
        var (cache, r) := Enter(w.cache, scope, now);
        var w' := w.(cache := cache);
        (match r
         case Rejected => Return(w', k, scope, Outcome(None, Some("invalid scope")))
         case Hit(snap) => Return(w', k, scope, Outcome(Some(snap), None))
         case WaitFor(id) => w'.(callers := w.callers[k := Waiting(scope, id)])
         case BuildNow(id) => w'.(callers := w.callers[k := Building(scope, id)]))
    case FinishStep(k, rows, now) =>
      if !CallerOf(w, k).Building? || CallerOf(w, k).id >= |w.cache.builds| then w
      else
        var scope := CallerOf(w, k).scope;
        var (cache, r) := Finish(w.cache, CallerOf(w, k).id, rows, now, e);
        var w' := w.(cache := cache);
        if r.Retry? then w'.(callers := w.callers[k := Calling(scope)]) else Return(w', k, scope, r.outcome)
    case WakeStep(k) =>
      if !CallerOf(w, k).Waiting? || CallerOf(w, k).id >= |w.cache.builds|
        || !w.cache.builds[CallerOf(w, k).id].done then w
      else
        var scope := CallerOf(w, k).scope;
        var r := Wake(w.cache, CallerOf(w, k).id);
        if r.Retry? then w.(callers := w.callers[k := Calling(scope)]) else Return(w, k, scope, r.outcome)
    case CancelStep(k) =>
      if !CallerOf(w, k).Waiting? then w else Return(w, k, CallerOf(w, k).scope, Outcome(None, Some("context done")))
    case FenceStep(backendId) => w.(cache := FenceBackend(w.cache, backendId))
    case InvalidateStep(scope) => w.(cache := Invalidate(w.cache, scope))
  }

  // ---- What every interleaving keeps ----

  /** A snapshot this cache may hold or hand out. */
  ghost predicate GoodSnapshot(s: Snapshot, scope: Scope, generation: nat) {
    s.scope == scope && s.generation == generation && RowsOk(s.rows)
  }

  ghost predicate StoredCurrent(c: Cache) {
    forall scope | scope in c.scopes :: GoodSnapshot(c.scopes[scope], scope, GenerationOf(c, scope.backendId))
  }

  ghost predicate InFlightCurrent(c: Cache) {
    forall scope | scope in c.inFlight ::
      && c.inFlight[scope] < |c.builds|
      && var b := c.builds[c.inFlight[scope]];
         b.scope == scope && b.generation == GenerationOf(c, scope.backendId) && !b.done
  }

  /**
   * Builds never run ahead of their backend. One of the current generation is in flight while it runs and
   * holds exactly one of a snapshot and an error once it is done.
   */
  ghost predicate BuildOk(c: Cache, id: BuildId)
    requires id < |c.builds|
  {
    var b := c.builds[id];
    var current := GenerationOf(c, b.scope.backendId);
    && b.generation <= current
    && (!b.done ==> b.snapshot.None? && b.error.None?)
    && (b.generation == current && !b.done ==> b.scope in c.inFlight && c.inFlight[b.scope] == id)
    && (b.generation == current && b.done ==>
          && (b.snapshot.Some? <==> b.error.None?)
          && (b.snapshot.Some? ==> GoodSnapshot(b.snapshot.value, b.scope, current)))
  }

  ghost predicate BuildsOk(c: Cache) {
    forall id | 0 <= id < |c.builds| :: BuildOk(c, id)
  }

  ghost predicate CacheOk(c: Cache) {
    StoredCurrent(c) && InFlightCurrent(c) && BuildsOk(c)
  }

  ghost predicate CallerOk(c: Cache, caller: Caller) {
    match caller
    case Idle => true
    case Calling(_) => true
    case Waiting(scope, id) => id < |c.builds| && c.builds[id].scope == scope
    case Building(scope, id) =>
      && id < |c.builds| && c.builds[id].scope == scope
      && (c.builds[id].done ==> c.builds[id].generation < GenerationOf(c, scope.backendId))
  }

  predicate Builds(callers: map<nat, Caller>, k: nat, id: BuildId) {
    k in callers && callers[k].Building? && callers[k].id == id
  }

  /** Each build has one builder, and a build that is not done still has it. */
  ghost predicate Protocol(c: Cache, callers: map<nat, Caller>) {
    && (forall k | k in callers :: CallerOk(c, callers[k]))
    && (forall j, k, id | Builds(callers, j, id) && Builds(callers, k, id) :: j == k)
    && (forall id | 0 <= id < |c.builds| && !c.builds[id].done :: exists k :: Builds(callers, k, id))
  }

  ghost predicate ReturnedOk(r: Returned) {
    && (r.outcome.snapshot.Some? <==> r.outcome.error.None?)
    && (r.outcome.snapshot.Some? ==> GoodSnapshot(r.outcome.snapshot.value, r.scope, r.generation))
  }

  ghost predicate Inv(w: World) {
    && CacheOk(w.cache)
    && Protocol(w.cache, w.callers)
    && (forall i | 0 <= i < |w.returned| :: ReturnedOk(w.returned[i]))
  }

  lemma EnterKeepsCache(c: Cache, scope: Scope, now: int)
    requires CacheOk(c)
    ensures CacheOk(Enter(c, scope, now).0)
    ensures Enter(c, scope, now).1.Hit? ==>
              GoodSnapshot(Enter(c, scope, now).1.snapshot, scope, GenerationOf(c, scope.backendId))
  {
    var c' := Enter(c, scope, now).0;
    if c' != c {
      // A build of the current generation would have been waited for, so nothing is overwritten.
      assert scope !in c.inFlight;
      forall id | 0 <= id < |c'.builds| ensures BuildOk(c', id) {
        if id < |c.builds| {
          assert BuildOk(c, id) && c'.builds[id] == c.builds[id];
        }
      }
    }
  }

  lemma FinishKeepsCache(c: Cache, id: BuildId, rows: Result<seq<Row>, string>, now: int, e: EpochOf)
    requires CacheOk(c) && id < |c.builds|
    requires c.builds[id].done ==> c.builds[id].generation < GenerationOf(c, c.builds[id].scope.backendId)
    ensures CacheOk(Finish(c, id, rows, now, e).0)
    ensures var r := Finish(c, id, rows, now, e).1;
            r.Answer? ==>
              ReturnedOk(Returned(c.builds[id].scope, r.outcome, GenerationOf(c, c.builds[id].scope.backendId)))
  {
    var c' := Finish(c, id, rows, now, e).0;
    var b := c.builds[id];
    assert BuildOk(c, id);
    forall scope | scope in c'.inFlight
      ensures c'.inFlight[scope] < |c'.builds| && c'.builds[c'.inFlight[scope]] == c.builds[c.inFlight[scope]]
    {
      assert scope in c.inFlight && c.builds[c.inFlight[scope]].scope == scope;
    }
    forall other | 0 <= other < |c'.builds| ensures BuildOk(c', other) {
      assert BuildOk(c, other);
      if other != id { assert c'.builds[other] == c.builds[other]; }
    }
  }

  lemma FenceKeepsCache(c: Cache, backendId: string)
    requires CacheOk(c)
    ensures CacheOk(FenceBackend(c, backendId))
  {
    var c' := FenceBackend(c, backendId);
    forall scope | scope in c'.inFlight
      ensures c'.inFlight[scope] < |c'.builds| && c'.builds[c'.inFlight[scope]] == c.builds[c.inFlight[scope]]
    {
      assert !Fenced(c, backendId, c.inFlight[scope]);
    }
    forall id | 0 <= id < |c'.builds| ensures BuildOk(c', id) {
      assert BuildOk(c, id);
    }
  }

  /** A caller that is not building gives way to one that is not building either. */
  lemma CallerReplaced(c: Cache, callers: map<nat, Caller>, k: nat, caller: Caller)
    requires Protocol(c, callers)
    requires k in callers ==> !callers[k].Building?
    requires !caller.Building? && CallerOk(c, caller)
    ensures Protocol(c, callers[k := caller])
  {
    var callers' := callers[k := caller];
    forall id | 0 <= id < |c.builds| && !c.builds[id].done ensures exists j :: Builds(callers', j, id) {
      var j :| Builds(callers, j, id);
      assert Builds(callers', j, id);
    }
    assert forall j, id :: Builds(callers', j, id) ==> Builds(callers, j, id);
  }

  lemma BuilderStarts(c: Cache, c': Cache, callers: map<nat, Caller>, k: nat, scope: Scope, generation: nat)
    requires Protocol(c, callers) && k in callers && callers[k].Calling?
    requires c'.generations == c.generations && c'.builds == c.builds + [Build(scope, generation, false, None, None)]
    ensures Protocol(c', callers[k := Building(scope, |c.builds|)])
  {
    var callers' := callers[k := Building(scope, |c.builds|)];
    forall j | j in callers' ensures CallerOk(c', callers'[j]) {
      if j != k { assert CallerOk(c, callers[j]); }
    }
    forall j: nat, id: nat | Builds(callers', j, id)
      ensures if j == k then id == |c.builds| else id < |c.builds| && Builds(callers, j, id)
    {
      if j != k { assert CallerOk(c, callers[j]); }
    }
    forall id | 0 <= id < |c'.builds| && !c'.builds[id].done ensures exists j :: Builds(callers', j, id) {
      if id == |c.builds| {
        assert Builds(callers', k, id);
      } else {
        var j :| Builds(callers, j, id);
        assert Builds(callers', j, id);
      }
    }
  }

  lemma BuilderFinishes(c: Cache, c': Cache, callers: map<nat, Caller>, k: nat, caller: Caller)
    requires Protocol(c, callers) && k in callers && callers[k].Building? && (caller.Idle? || caller.Calling?)
    requires c'.generations == c.generations && |c'.builds| == |c.builds| && callers[k].id < |c.builds|
    requires c'.builds[callers[k].id].done && c'.builds[callers[k].id].scope == c.builds[callers[k].id].scope
    requires forall id | 0 <= id < |c.builds| && id != callers[k].id :: c'.builds[id] == c.builds[id]
    ensures Protocol(c', callers[k := caller])
  {
    var callers' := callers[k := caller];
    assert Builds(callers, k, callers[k].id);
    forall j | j in callers' ensures CallerOk(c', callers'[j]) {
      if j != k {
        assert CallerOk(c, callers[j]);
        if callers[j].Building? { assert Builds(callers, j, callers[j].id); }
      }
    }
    assert forall j, id :: Builds(callers', j, id) ==> Builds(callers, j, id);
    forall id | 0 <= id < |c'.builds| && !c'.builds[id].done ensures exists j :: Builds(callers', j, id) {
      var j :| Builds(callers, j, id);
      assert Builds(callers', j, id);
    }
  }

  lemma FenceKeepsProtocol(c: Cache, callers: map<nat, Caller>, backendId: string)
    requires CacheOk(c) && Protocol(c, callers)
    ensures Protocol(FenceBackend(c, backendId), callers)
  {
    var c' := FenceBackend(c, backendId);
    forall j | j in callers ensures CallerOk(c', callers[j]) {
      assert CallerOk(c, callers[j]);
      if callers[j].Building? && Fenced(c, backendId, callers[j].id) {
        var scope :| scope in c.inFlight && scope.backendId == backendId && c.inFlight[scope] == callers[j].id;
        assert c.builds[callers[j].id].generation == GenerationOf(c, backendId);
      }
    }
    forall id | 0 <= id < |c'.builds| && !c'.builds[id].done ensures exists j :: Builds(callers, j, id) {
      assert !c.builds[id].done;
    }
  }

  lemma EnterKeepsInv(w: World, k: nat, now: int, e: EpochOf)
    requires Inv(w) && CallerOf(w, k).Calling?
    ensures Inv(NextWorld(w, EnterStep(k, now), e))
  {
    var scope := CallerOf(w, k).scope;
    var (cache, r) := Enter(w.cache, scope, now);
    EnterKeepsCache(w.cache, scope, now);
    match r
    case Rejected =>
      CallerReplaced(w.cache, w.callers, k, Idle);
    case Hit(_) =>
      CallerReplaced(w.cache, w.callers, k, Idle);
    case WaitFor(id) =>
      CallerReplaced(w.cache, w.callers, k, Waiting(scope, id));
    case BuildNow(_) =>
      BuilderStarts(w.cache, cache, w.callers, k, scope, GenerationOf(w.cache, scope.backendId));
  }

  lemma FinishKeepsInv(w: World, k: nat, rows: Result<seq<Row>, string>, now: int, e: EpochOf)
    requires Inv(w) && CallerOf(w, k).Building?
    ensures Inv(NextWorld(w, FinishStep(k, rows, now), e))
  {
    assert CallerOk(w.cache, w.callers[k]);
    var scope, id := CallerOf(w, k).scope, CallerOf(w, k).id;
    var (cache, r) := Finish(w.cache, id, rows, now, e);
    FinishKeepsCache(w.cache, id, rows, now, e);
    BuilderFinishes(w.cache, cache, w.callers, k, if r.Retry? then Calling(scope) else Idle);
  }

  lemma WakeKeepsInv(w: World, k: nat, e: EpochOf)
    requires Inv(w) && CallerOf(w, k).Waiting? && CallerOf(w, k).id < |w.cache.builds|
             && w.cache.builds[CallerOf(w, k).id].done
    ensures Inv(NextWorld(w, WakeStep(k), e))
  {
    assert CallerOk(w.cache, w.callers[k]);
    var scope, id := CallerOf(w, k).scope, CallerOf(w, k).id;
    assert BuildOk(w.cache, id);
    CallerReplaced(w.cache, w.callers, k, if Wake(w.cache, id).Retry? then Calling(scope) else Idle);
  }

  lemma InvalidateKeepsInv(w: World, scope: Scope, e: EpochOf)
    requires Inv(w)
    ensures Inv(NextWorld(w, InvalidateStep(scope), e))
  {
    var c' := Invalidate(w.cache, scope);
    forall id | 0 <= id < |c'.builds| ensures BuildOk(c', id) {
      assert BuildOk(w.cache, id);
    }
    forall k | k in w.callers ensures CallerOk(c', w.callers[k]) {
      assert CallerOk(w.cache, w.callers[k]);
    }
  }

  lemma NextKeepsInv(w: World, step: Step, e: EpochOf)
    requires Inv(w)
    ensures Inv(NextWorld(w, step, e))
  {
    match step
    case Call(k, scope) =>
      if CallerOf(w, k).Idle? { CallerReplaced(w.cache, w.callers, k, Calling(scope)); }
    case EnterStep(k, now) =>
      if CallerOf(w, k).Calling? { EnterKeepsInv(w, k, now, e); }
    case FinishStep(k, rows, now) =>
      if CallerOf(w, k).Building? { FinishKeepsInv(w, k, rows, now, e); }
    case WakeStep(k) =>
      if NextWorld(w, step, e) != w { WakeKeepsInv(w, k, e); }
    case CancelStep(k) =>
      if CallerOf(w, k).Waiting? { CallerReplaced(w.cache, w.callers, k, Idle); }
    case FenceStep(backendId) =>
      FenceKeepsCache(w.cache, backendId);
      FenceKeepsProtocol(w.cache, w.callers, backendId);
    case InvalidateStep(scope) =>
      InvalidateKeepsInv(w, scope, e);
  }

  function Run(steps: seq<Step>, e: EpochOf): World {
    if steps == [] then World(EMPTY_CACHE, map[], [])
    else NextWorld(Run(steps[..|steps| - 1], e), steps[|steps| - 1], e)
  }

  lemma {:induction false} RunKeepsInv(steps: seq<Step>, e: EpochOf)
    ensures Inv(Run(steps, e))
  {
    if steps != [] {
      RunKeepsInv(steps[..|steps| - 1], e);
      NextKeepsInv(Run(steps[..|steps| - 1], e), steps[|steps| - 1], e);
    }
  }

  /** Two builders of one scope, both of the backend's current generation. */
  ghost predicate CurrentBuilder(w: World, k: nat, scope: Scope) {
    && CallerOf(w, k).Building? && CallerOf(w, k).scope == scope && CallerOf(w, k).id < |w.cache.builds|
    && w.cache.builds[CallerOf(w, k).id].generation == GenerationOf(w.cache, scope.backendId)
  }

  /**
   * The generation fence, in every interleaving: stored snapshots and in-flight builds carry their
   * backend's current generation, at most one current-generation build runs per scope, and every answer
   * is a snapshot of the generation it was checked against or an error, never neither.
   */
  lemma GenerationFence(steps: seq<Step>, e: EpochOf)
    ensures var w := Run(steps, e);
            && StoredCurrent(w.cache) && InFlightCurrent(w.cache)
            && (forall scope, j, k | CurrentBuilder(w, j, scope) && CurrentBuilder(w, k, scope) :: j == k)
            && (forall i | 0 <= i < |w.returned| :: ReturnedOk(w.returned[i]))
  {
    var w := Run(steps, e);
    RunKeepsInv(steps, e);
    forall scope, j, k | CurrentBuilder(w, j, scope) && CurrentBuilder(w, k, scope) ensures j == k {
      assert Builds(w.callers, j, CallerOf(w, j).id) && Builds(w.callers, k, CallerOf(w, k).id);
      assert CallerOk(w.cache, w.callers[j]) && CallerOk(w.cache, w.callers[k]);
      assert BuildOk(w.cache, CallerOf(w, j).id) && BuildOk(w.cache, CallerOf(w, k).id);
    }
  }

  /** No waiter is left behind: its build is done, or some caller is still building it. */
  lemma WaitersAreServed(steps: seq<Step>, e: EpochOf, k: nat)
    requires CallerOf(Run(steps, e), k).Waiting?
    ensures var w := Run(steps, e);
            var id := CallerOf(w, k).id;
            && id < |w.cache.builds|
            && (w.cache.builds[id].done || exists j :: Builds(w.callers, j, id))
  {
    RunKeepsInv(steps, e);
    assert CallerOk(Run(steps, e).cache, Run(steps, e).callers[k]);
  }
}
