/**
 * What fetches come to. Every snapshot the cache keeps or hands out holds exactly the rows some builder returned,
 * which is what paging over it and its cursors rely on; and what each call does, said of the cache's own fields.
 */
module WireFetches {
  import opened CatalogCursor
  import opened CursorWalk
  import opened Options
  import opened Text
  import opened WireCache
  import opened WirePaging

  // ---- Where snapshots come from ----

  /** The snapshot is stored, kept by a build record, or was handed to a caller. */
  ghost predicate Has(w: World, s: Snapshot) {
    || (exists scope :: scope in w.cache.scopes && w.cache.scopes[scope] == s)
    || (exists id :: 0 <= id < |w.cache.builds| && w.cache.builds[id].snapshot == Some(s))
    || (exists i :: 0 <= i < |w.returned| && w.returned[i].outcome.snapshot == Some(s))
  }

  /** A builder of the snapshot's scope, at its generation and at the time it bears, returned its rows. */
  ghost predicate Brought(w: World, step: Step, s: Snapshot, e: EpochOf) {
    && step.FinishStep? && step.rows == Ok(s.rows) && step.now == s.createdAt
    && CallerOf(w, step.caller).Building? && CallerOf(w, step.caller).scope == s.scope
    && GenerationOf(w.cache, s.scope.backendId) == s.generation
    && BuiltWith(s, e)
  }

  /** What a finished build leaves is what was there before, but for the one snapshot it may bring. */
  lemma FinishBrings(c: Cache, id: BuildId, rows: Result<seq<Row>, string>, now: int, e: EpochOf)
    returns (made: Option<Snapshot>)
    requires id < |c.builds|
    ensures var (c', r) := Finish(c, id, rows, now, e);
            && (forall scope | scope in c'.scopes ::
                  Some(c'.scopes[scope]) == made || (scope in c.scopes && c'.scopes[scope] == c.scopes[scope]))
            && |c'.builds| == |c.builds|
            && (forall k | 0 <= k < |c.builds| ::
                  c'.builds[k].snapshot == c.builds[k].snapshot || (c'.builds[k].snapshot == made && made.Some?))
            && (r.Answer? ==> r.outcome.snapshot == made)
    ensures made.Some? ==>
              && rows == Ok(made.value.rows) && made.value.createdAt == now && BuiltWith(made.value, e)
              && made.value.scope == c.builds[id].scope
              && made.value.generation == GenerationOf(c, c.builds[id].scope.backendId)
  {
    var b := c.builds[id];
    made := None;
    if GenerationOf(c, b.scope.backendId) == b.generation && rows.Ok? && RowsOk(rows.value) {
      made := Some(Snapshot(b.scope, b.generation, e(Identity(b.scope), SemanticsOf(rows.value)), now, rows.value));
    }
  }

  lemma FinishStepBrings(w: World, step: Step, e: EpochOf, s: Snapshot)
    requires Inv(w) && step.FinishStep? && Has(NextWorld(w, step, e), s) && !Has(w, s)
    ensures Brought(w, step, s, e)
  {
    var k := step.caller;
    if CallerOf(w, k).Building? && CallerOf(w, k).id < |w.cache.builds| {
      assert CallerOk(w.cache, w.callers[k]);
      var made := FinishBrings(w.cache, CallerOf(w, k).id, step.rows, step.now, e);
      var next := NextWorld(w, step, e);
      assert forall i | 0 <= i < |w.returned| :: next.returned[i] == w.returned[i];
    }
  }

  lemma EnterKeepsSnapshots(c: Cache, scope: Scope, now: int)
    ensures var c' := Enter(c, scope, now).0;
            && c'.scopes == c.scopes && |c'.builds| >= |c.builds|
            && forall id | 0 <= id < |c'.builds| ::
                 c'.builds[id].snapshot == if id < |c.builds| then c.builds[id].snapshot else None
    ensures var r := Enter(c, scope, now).1; r.Hit? ==> scope in c.scopes && r.snapshot == c.scopes[scope]
  {
  }

  lemma EnterBringsNone(w: World, k: nat, now: int, e: EpochOf, s: Snapshot)
    requires Has(NextWorld(w, EnterStep(k, now), e), s)
    ensures Has(w, s)
  {
    var next := NextWorld(w, EnterStep(k, now), e);
    if CallerOf(w, k).Calling? {
      EnterKeepsSnapshots(w.cache, CallerOf(w, k).scope, now);
      forall i | 0 <= i < |w.returned| ensures next.returned[i] == w.returned[i] {}
    }
  }

  lemma OtherStepsBringNone(w: World, step: Step, e: EpochOf, s: Snapshot)
    requires Inv(w) && !step.FinishStep? && Has(NextWorld(w, step, e), s)
    ensures Has(w, s)
  {
    var next := NextWorld(w, step, e);
    if step.EnterStep? {
      EnterBringsNone(w, step.caller, step.now, e, s);
    } else {
      assert |next.returned| == |w.returned| + 1 ==> next.returned[..|w.returned|] == w.returned;
    }
  }

  /** The step at a position of the run brought the snapshot. */
  ghost predicate BroughtAt(steps: seq<Step>, i: nat, s: Snapshot, e: EpochOf) {
    i < |steps| && Brought(Run(steps[..i], e), steps[i], s, e)
  }

  /**
   * In every interleaving, whatever the cache stores, keeps with a build or hands to a caller has exactly the rows
   * some builder of its scope and generation returned, and as its time that builder's.
   */
  lemma {:induction false} EverySnapshotWasBrought(steps: seq<Step>, e: EpochOf, s: Snapshot) returns (i: nat)
    requires Has(Run(steps, e), s)
    ensures BroughtAt(steps, i, s, e)
  {
    var front, last := steps[..|steps| - 1], steps[|steps| - 1];
    var w := Run(front, e);
    RunKeepsInv(front, e);
    if Has(w, s) {
      i := EverySnapshotWasBrought(front, e, s);
      assert front[..i] == steps[..i];
    } else {
      i := |front|;
      if last.FinishStep? { FinishStepBrings(w, last, e, s); } else { OtherStepsBringNone(w, last, e, s); }
    }
  }

  // ---- What paging may rely on ----

  /** The program's clock is never at the zero time. */
  predicate ClockRuns(steps: seq<Step>) {
    forall step | step in steps && step.FinishStep? :: step.now != 0
  }

  /** Paging over any snapshot of any run, while it lives, yields the rows its builder returned. */
  lemma FetchedPagesConcatenate(steps: seq<Step>, e: EpochOf, s: Snapshot, limit: int, now: nat -> int,
                                pages: seq<PageResult>) returns (i: nat)
    requires Has(Run(steps, e), s) && ClockRuns(steps) && limit > 0
    requires (forall n :: !SnapshotExpired(s.createdAt, now(n))) && PageRun(s, limit, now, pages)
    ensures BroughtAt(steps, i, s, e) && |pages| <= |s.rows| + 1 && pages[|pages| - 1].Page?
    ensures pages[|pages| - 1].next == NoCursor ==> Ok(AllRows(ClientOf(s, limit, now), pages)) == steps[i].rows
    ensures pages[|pages| - 1].next != NoCursor ==> exists p :: PageRun(s, limit, now, pages + [p])
  {
    i := EverySnapshotWasBrought(steps, e, s);
    PagesConcatenate(s, limit, now, pages);
  }

  /**
   * A cursor from a page of any fetch, presented to whatever the cache then holds for any scope, after any run, is
   * stale or goes on with the same rows by id, in the scope it came from.
   */
  lemma FetchedCursorSurvivesOrIsStale(steps: seq<Step>, later: seq<Step>, e: EpochOf, issued: Snapshot, start: nat,
                                       limit: int, scope: Scope, limit': int, now: int)
    requires Injective(e) && Has(Run(steps, e), issued) && ClockRuns(steps)
    requires start <= |issued.rows| && PageFrom(issued, start, limit).hasMore
    ensures var stored := Lookup(Run(later, e).cache.scopes, scope);
            var r := SlicePage(stored, PageFrom(issued, start, limit).next, limit', now);
            || r.Stale?
            || (r.Page? && stored.Some? && Identity(scope) == Identity(issued.scope)
                && Ids(r.rows) == Ids(PageFrom(issued, start + limit, limit').rows))
  {
    var stored := Lookup(Run(later, e).cache.scopes, scope);
    var i := EverySnapshotWasBrought(steps, e, issued);
    if stored.Some? {
      RunKeepsInv(later, e);
      assert Has(Run(later, e), stored.value);
      var j := EverySnapshotWasBrought(later, e, stored.value);
    }
    CursorSurvivesOrIsStale(e, issued, start, limit, stored, limit', now);
  }

  // ---- What each call comes to ----

  /** Nothing is answered twice or taken back: the answers so far, and one more for the caller. */
  ghost predicate Answers(w: World, next: World, k: nat, scope: Scope, snapshot: Option<Snapshot>,
                          error: Option<string>) {
    && next.returned == w.returned + [Returned(scope, Outcome(snapshot, error), GenerationOf(w.cache, scope.backendId))]
    && next.callers == w.callers[k := Idle]
  }

  /**
   * A fetch is refused for a scope that is none; it takes what is stored while that is at most ten minutes old, waits
   * for the scope's build in flight, and builds only when there is neither.
   */
  lemma FetchTakes(w: World, k: nat, now: int, e: EpochOf)
    requires Inv(w) && CallerOf(w, k).Calling?
    ensures var c, scope, next := w.cache, CallerOf(w, k).scope, NextWorld(w, EnterStep(k, now), e);
            var stored := Lookup(c.scopes, scope);
            if scope.backendId == "" || scope.global == (scope.directory != "") then
              next.cache == c && Answers(w, next, k, scope, None, Some("invalid scope"))
            else if stored.Some? && stored.value.createdAt != 0 && now - stored.value.createdAt <= 600_000 then
              next.cache == c && Answers(w, next, k, scope, stored, None)
            else if scope in c.inFlight then
              next == w.(callers := w.callers[k := Waiting(scope, c.inFlight[scope])])
            else
              && next.callers == w.callers[k := Building(scope, |c.builds|)] && next.returned == w.returned
              && next.cache == c.(inFlight := c.inFlight[scope := |c.builds|],
                                  builds := c.builds + [Build(scope, GetOr(c.generations, scope.backendId, 0), false,
                                                              None, None)])
  {
    var c, scope := w.cache, CallerOf(w, k).scope;
    if scope in c.scopes { assert GoodSnapshot(c.scopes[scope], scope, GenerationOf(c, scope.backendId)); }
  }

  /** Rows a snapshot may be made of: none without an id, white space aside, and no id twice. */
  ghost predicate SoundRows(rows: seq<Row>) {
    && (forall i | 0 <= i < |rows| :: Trim(rows[i].id) != "")
    && (forall i, j | 0 <= i < j < |rows| :: Trim(rows[i].id) != Trim(rows[j].id))
  }

  lemma SoundRowsIff(rows: seq<Row>)
    ensures RowsOk(rows) <==> SoundRows(rows)
  {
    var ids := TrimmedIds(rows);
    forall i | 0 <= i < |rows| ensures ids[i] in ids && ids[i] == Trim(rows[i].id) {}
    if SoundRows(rows) {
      forall i, j | 0 <= i < j < |ids| ensures ids[i] != ids[j] {}
    }
  }

  /**
   * A build that ends is in flight no more and done. Its rows, when they are sound and no fence came between, are
   * stored for its scope and answered; its error, or that of unsound rows, is answered alone; behind a fence the
   * caller fetches again.
   */
  lemma BuildEnds(w: World, k: nat, rows: Result<seq<Row>, string>, now: int, e: EpochOf)
    requires Inv(w) && CallerOf(w, k).Building?
    ensures var c, scope, id := w.cache, CallerOf(w, k).scope, CallerOf(w, k).id;
            var next := NextWorld(w, FinishStep(k, rows, now), e);
            && id < |c.builds| == |next.cache.builds| && next.cache.builds[id].done
            && (scope in next.cache.inFlight ==> next.cache.inFlight[scope] != id)
            && (forall other | other in next.cache.inFlight ::
                 other in c.inFlight && next.cache.inFlight[other] == c.inFlight[other])
            && next.cache.generations == c.generations
            && if c.builds[id].generation != GetOr(c.generations, scope.backendId, 0) then
                 next.cache.scopes == c.scopes && next.returned == w.returned
                 && next.callers == w.callers[k := Calling(scope)]
               else if rows.Err? || !SoundRows(rows.value) then
                 next.cache.scopes == c.scopes
                 && Answers(w, next, k, scope, None, Some(if rows.Err? then rows.error else "invalid catalog rows"))
               else
                 && scope in next.cache.scopes && next.cache.scopes[scope].rows == rows.value
                 && next.cache.scopes == c.scopes[scope := next.cache.scopes[scope]]
                 && Answers(w, next, k, scope, Some(next.cache.scopes[scope]), None)
  {
    assert CallerOk(w.cache, w.callers[k]);
    if rows.Ok? { SoundRowsIff(rows.value); }
  }

  /** A waiter whose build is done gets what that build left, or fetches again when a fence came between. */
  lemma WaiterReads(w: World, k: nat, e: EpochOf)
    requires Inv(w) && CallerOf(w, k).Waiting? && w.cache.builds[CallerOf(w, k).id].done
    ensures var scope, build := CallerOf(w, k).scope, w.cache.builds[CallerOf(w, k).id];
            var next := NextWorld(w, WakeStep(k), e);
            && next.cache == w.cache
            && if build.generation == GetOr(w.cache.generations, scope.backendId, 0) then
                 Answers(w, next, k, scope, build.snapshot, build.error)
               else next == w.(callers := w.callers[k := Calling(scope)])
  {
    assert CallerOk(w.cache, w.callers[k]);
  }

  /** A fence raises one backend's generation, and of its scopes drops what is stored and ends what is in flight. */
  lemma FenceClears(w: World, backendId: string, e: EpochOf)
    requires Inv(w)
    ensures var c, c' := w.cache, NextWorld(w, FenceStep(backendId), e).cache;
            && c'.generations == c.generations[backendId := GetOr(c.generations, backendId, 0) + 1]
            && (forall s :: s in c'.scopes <==> s in c.scopes && s.backendId != backendId)
            && (forall s :: s in c'.inFlight <==> s in c.inFlight && s.backendId != backendId)
            && (forall s | s in c'.scopes :: c'.scopes[s] == c.scopes[s])
            && (forall s | s in c'.inFlight :: c'.inFlight[s] == c.inFlight[s])
            && |c'.builds| == |c.builds|
            && forall id | 0 <= id < |c.builds| ::
                 var b := c.builds[id];
                 var ended := b.scope.backendId == backendId && b.generation == GetOr(c.generations, backendId, 0);
                 c'.builds[id] == b.(done := b.done || ended)
  {
    var c := w.cache;
    forall id | 0 <= id < |c.builds|
      ensures var b := c.builds[id];
              Fenced(c, backendId, id) ==> b.scope.backendId == backendId && b.generation == GenerationOf(c, backendId)
      ensures var b := c.builds[id];
              b.scope.backendId == backendId && b.generation == GenerationOf(c, backendId) ==>
                b.done || Fenced(c, backendId, id)
    {
      assert BuildOk(c, id);
    }
  }

  /** Invalidating drops one stored snapshot; a waiter whose context ends is told so. Neither does anything else. */
  lemma InvalidateAndCancel(w: World, scope: Scope, k: nat, e: EpochOf)
    requires CallerOf(w, k).Waiting?
    ensures var next := NextWorld(w, InvalidateStep(scope), e);
            && next == w.(cache := w.cache.(scopes := next.cache.scopes))
            && scope !in next.cache.scopes
            && forall other | other != scope :: Lookup(next.cache.scopes, other) == Lookup(w.cache.scopes, other)
    ensures var next := NextWorld(w, CancelStep(k), e);
            next.cache == w.cache && Answers(w, next, k, CallerOf(w, k).scope, None, Some("context done"))
  {
  }
}
