/**
 * Keyset paging over a frozen, sorted catalog snapshot: a page starts strictly after the cursor's key. Proved
 * against slicing by index, and against rebuilds of the snapshot from the same rows in another order.
 */
module KeysetPaging {
  import opened CatalogCursor
  import opened CatalogFingerprint
  import opened CursorWalk
  import opened KeysetOrder
  import opened Options
  import opened Text

  const DEFAULT_LIMIT: nat := 50

  datatype Snapshot = Snapshot(scope: string, epoch: string, createdAt: int, sessions: seq<Row>)

  datatype Page =
    | Rows(sessions: seq<Row>, hasMore: bool, next: Cursor, epoch: string)
    | Stale(reason: StaleReason, epoch: string)
    | Failed(error: string)

  /** Epochs come from the fingerprint text by a hash. */
  type Hash = string -> string

  ghost predicate Injective(hash: Hash) {
    forall s: string, t: string :: hash(s) == hash(t) ==> s == t
  }

  function Build(scope: string, rows: seq<Row>, now: int, hash: Hash): Snapshot {
    Snapshot(scope, hash(FingerprintText(rows)), now, SortBy(rows, CursorLess))
  }

  /** Whether the row comes strictly after the cursor's key. */
  predicate After(r: Row, updatedAt: int, id: string) {
    r.updatedAt < updatedAt || (r.updatedAt == updatedAt && Before(id, r.id))
  }

  /** The first row strictly after the key, or the end. */
  function StartOf(rows: seq<Row>, updatedAt: int, id: string): (k: nat)
    ensures k <= |rows|
    ensures forall i | 0 <= i < k :: !After(rows[i], updatedAt, id)
    ensures k < |rows| ==> After(rows[k], updatedAt, id)
  {
    if rows == [] then 0
    else if After(rows[0], updatedAt, id) then 0
    else
      var k := StartOf(rows[1..], updatedAt, id);
      assert forall i | 1 <= i < 1 + k :: rows[i] == rows[1..][i - 1];
      k + 1
  }

  /** The page of at most `limit` rows from a position on, with the cursor to the next if more follow. */
  function PageAt(snap: Snapshot, start: nat, limit: nat): Page
    requires start <= |snap.sessions| && limit > 0
  {
    var end := if start + limit > |snap.sessions| then |snap.sessions| else start + limit;
    var out := snap.sessions[start..end];
    var hasMore := |snap.sessions| > end;
    Rows(out, hasMore,
         if hasMore && out != [] then V2(snap.epoch, out[|out| - 1].updatedAt, out[|out| - 1].id) else NoCursor,
         snap.epoch)
  }

  function EffectiveLimit(limit: int): nat {
    if limit <= 0 then DEFAULT_LIMIT else limit
  }

  function ViewOf(snap: Option<Snapshot>): Option<View> {
    if snap.Some? then Some(View(snap.value.epoch, snap.value.createdAt)) else None
  }

  /** A page request with a cursor: never rebuilds, and slices only a live snapshot of the cursor's epoch. */
  function PageWithCursor(snap: Option<Snapshot>, cursor: Cursor, limit: int, now: int): Page
    requires !cursor.NoCursor?
  {
    if cursor.Malformed? then Failed("malformed cursor")
    else
      var stale := ValidateCursor(cursor, ViewOf(snap), now);
      if stale.Some? then Stale(stale.value, if snap.Some? then snap.value.epoch else "")
      else
        var start := StartOf(snap.value.sessions, cursor.updatedAtMillis, cursor.sessionId);
        PageAt(snap.value, start, EffectiveLimit(limit))
  }

  method SlicePageN(snap: Snapshot, updatedAt: int, id: string, limit: nat) returns (page: Page)
    requires limit > 0
    ensures page == PageAt(snap, StartOf(snap.sessions, updatedAt, id), limit)
  {
    var start := |snap.sessions|;
    for i := 0 to |snap.sessions|
      invariant start == |snap.sessions|
      invariant forall j | 0 <= j < i :: !After(snap.sessions[j], updatedAt, id)
    {
      if After(snap.sessions[i], updatedAt, id) {
        start := i;
        break;
      }
    }
    assert start == StartOf(snap.sessions, updatedAt, id);
    page := PageAt(snap, start, limit);
  }

  // ---- Keyset slicing is slicing by index ----

  ghost predicate SnapshotOk(snap: Snapshot) {
    Sorted(snap.sessions, CursorLess)
  }

  lemma CursorLessIsAsymmetric(a: Row, b: Row)
    requires CursorLess(a, b)
    ensures !CursorLess(b, a)
  {
    BeforeIrreflexive(a.id);
    if Before(a.id, b.id) && Before(b.id, a.id) { BeforeTransitive(a.id, b.id, a.id); }
  }

  /** The key of row k starts the next page at row k + 1. */
  lemma KeyOfRowStartsNext(rows: seq<Row>, k: nat)
    requires Sorted(rows, CursorLess) && k < |rows|
    ensures StartOf(rows, rows[k].updatedAt, rows[k].id) == k + 1
  {
    CursorLessIsOrdering();
    var start := StartOf(rows, rows[k].updatedAt, rows[k].id);
    forall i | 0 <= i < |rows| ensures After(rows[i], rows[k].updatedAt, rows[k].id) <==> k < i {
      assert After(rows[i], rows[k].updatedAt, rows[k].id) <==> CursorLess(rows[k], rows[i]);
      if i < k { CursorLessIsAsymmetric(rows[i], rows[k]); }
    }
  }

  function AllAfter(rows: seq<Row>, updatedAt: int, id: string): seq<Row> {
    if rows == [] then []
    else (if After(rows[0], updatedAt, id) then [rows[0]] else []) + AllAfter(rows[1..], updatedAt, id)
  }

  /** For any key, that of a row gone since included, the slice is exactly the rows strictly after it. */
  lemma {:induction false} SliceIsAllAfter(rows: seq<Row>, updatedAt: int, id: string)
    requires Sorted(rows, CursorLess)
    ensures rows[StartOf(rows, updatedAt, id)..] == AllAfter(rows, updatedAt, id)
  {
    if rows != [] {
      if After(rows[0], updatedAt, id) {
        forall i | 0 <= i < |rows| ensures After(rows[i], updatedAt, id) {
          if i > 0 {
            assert CursorLess(rows[0], rows[i]);
            if Before(id, rows[0].id) && Before(rows[0].id, rows[i].id) {
              BeforeTransitive(id, rows[0].id, rows[i].id);
            }
          }
        }
        AllAreAfter(rows, updatedAt, id);
      } else {
        SliceIsAllAfter(rows[1..], updatedAt, id);
        assert rows[1..][StartOf(rows[1..], updatedAt, id)..] == rows[StartOf(rows, updatedAt, id)..];
      }
    }
  }

  lemma {:induction false} AllAreAfter(rows: seq<Row>, updatedAt: int, id: string)
    requires forall i | 0 <= i < |rows| :: After(rows[i], updatedAt, id)
    ensures AllAfter(rows, updatedAt, id) == rows
  {
    if rows != [] { AllAreAfter(rows[1..], updatedAt, id); }
  }

  // ---- What a request is answered ----

  /** A snapshot is listed newest first, the ids of one time rising, whatever order its rows came in. */
  lemma ListedNewestFirst(scope: string, rows: seq<Row>, now: int, hash: Hash)
    requires UniqueIds(rows)
    ensures var snap := Build(scope, rows, now, hash);
            && snap.scope == scope && snap.createdAt == now && snap.epoch == hash(FingerprintText(rows))
            && multiset(snap.sessions) == multiset(rows)
            && forall i, j | 0 <= i < j < |snap.sessions| ::
                 var a, b := snap.sessions[i], snap.sessions[j];
                 a.updatedAt > b.updatedAt || (a.updatedAt == b.updatedAt && Before(a.id, b.id))
  {
    BuildIsOk(scope, rows, now, hash);
  }

  /** A request with a cursor is malformed, or stale for the first of the reasons that applies, or sliced. */
  lemma CursorIsAnswered(snap: Option<Snapshot>, cursor: Cursor, limit: int, now: int)
    requires !cursor.NoCursor?
    ensures var page, epoch := PageWithCursor(snap, cursor, limit, now), if snap.Some? then snap.value.epoch else "";
            if cursor.Malformed? then page.Failed?
            else if cursor.V1? then page == Stale(CursorIsV1, epoch)
            else if snap.None? then page == Stale(NoSnapshot, "")
            else if snap.value.createdAt == 0 || now > snap.value.createdAt + 600_000 then page == Stale(Expired, epoch)
            else if epoch != cursor.epoch then page == Stale(EpochMismatch, epoch)
            else page.Rows? && page.epoch == epoch
  {
  }

  /** A page holds as many rows as its limit, fifty without one, and its cursor is the key of the last. */
  lemma PageHolds(snap: Snapshot, start: nat, limit: int)
    requires start <= |snap.sessions|
    ensures var size := if limit > 0 then limit else 50;
            var page := PageAt(snap, start, EffectiveLimit(limit));
            if start + size < |snap.sessions| then
              var last := snap.sessions[start + size - 1];
              page == Rows(snap.sessions[start..start + size], true, V2(snap.epoch, last.updatedAt, last.id),
                           snap.epoch)
            else page == Rows(snap.sessions[start..], false, NoCursor, snap.epoch)
  {
  }

  // ---- Following the cursors ----

  /** The page at each position. */
  function PagesOf(snap: Snapshot, limit: int): nat -> Page {
    (k: nat) => if k <= |snap.sessions| then PageAt(snap, k, EffectiveLimit(limit)) else Failed("past the end")
  }

  /** A client that fetches pages, the n-th one at its own time. */
  function ClientOf(snap: Snapshot, limit: int, now: nat -> int): Client<Page, Row> {
    Client((p: Page) => if p.Rows? then PageRead(p.sessions, p.next.V2?) else NoPage,
           (n: nat, p: Page) =>
             if p.Rows? && p.next.V2? then PageWithCursor(Some(snap), p.next, limit, now(n)) else p)
  }

  ghost predicate Live(snap: Snapshot, now: nat -> int) {
    SnapshotOk(snap) && forall n :: !SnapshotExpired(snap.createdAt, now(n))
  }

  /** The page with more rows behind it, and where its cursor leads. */
  lemma PageContinues(snap: Snapshot, k: nat, limit: int, now: int)
    requires SnapshotOk(snap) && !SnapshotExpired(snap.createdAt, now) && k + EffectiveLimit(limit) < |snap.sessions|
    ensures var size := EffectiveLimit(limit);
            var page := PageAt(snap, k, size);
            && page.next.V2? && page.sessions == snap.sessions[k..k + size]
            && PageWithCursor(Some(snap), page.next, limit, now) == PageAt(snap, k + size, size)
  {
    KeyOfRowStartsNext(snap.sessions, k + EffectiveLimit(limit) - 1);
  }

  lemma PageEnds(snap: Snapshot, k: nat, size: nat)
    requires size > 0 && k <= |snap.sessions| <= k + size
    ensures PageAt(snap, k, size).next.NoCursor? && PageAt(snap, k, size).sessions == snap.sessions[k..]
  {
  }

  lemma PageWalks(snap: Snapshot, k: nat, limit: int, now: nat -> int)
    requires Live(snap, now) && k <= |snap.sessions|
    ensures WalksAt(ClientOf(snap, limit, now), PagesOf(snap, limit), snap.sessions, EffectiveLimit(limit), k)
  {
    if k + EffectiveLimit(limit) < |snap.sessions| {
      forall n: nat {
        PageContinues(snap, k, limit, now(n));
      }
      PageContinues(snap, k, limit, now(0));
    } else {
      PageEnds(snap, k, EffectiveLimit(limit));
    }
  }

  lemma SnapshotWalks(snap: Snapshot, limit: int, now: nat -> int)
    requires Live(snap, now)
    ensures Walks(ClientOf(snap, limit, now), PagesOf(snap, limit), snap.sessions, EffectiveLimit(limit))
  {
    forall k: nat | k <= |snap.sessions| {
      PageWalks(snap, k, limit, now);
    }
  }

  /** Following cursors until none is left returns every row once, in order, in at most a page a row and one. */
  lemma PagesConcatenate(pages: seq<Page>, snap: Snapshot, limit: int, now: nat -> int)
    requires Live(snap, now) && Chain(ClientOf(snap, limit, now), PageAt(snap, 0, EffectiveLimit(limit)), pages)
    ensures |pages| <= |snap.sessions| + 1 && pages[|pages| - 1].Rows?
    ensures !pages[|pages| - 1].next.V2? ==> AllRows(ClientOf(snap, limit, now), pages) == snap.sessions
    ensures pages[|pages| - 1].next.V2? ==>
              exists p :: Chain(ClientOf(snap, limit, now), PageAt(snap, 0, EffectiveLimit(limit)), pages + [p])
  {
    SnapshotWalks(snap, limit, now);
    ChainConcatenates(ClientOf(snap, limit, now), pages, PagesOf(snap, limit), snap.sessions, EffectiveLimit(limit));
    if pages[|pages| - 1].next.V2? {
      var p := ChainContinues(ClientOf(snap, limit, now), PageAt(snap, 0, EffectiveLimit(limit)), pages);
    }
  }

  // ---- Rebuilds ----

  lemma BuildIsOk(scope: string, rows: seq<Row>, now: int, hash: Hash)
    requires UniqueIds(rows)
    ensures SnapshotOk(Build(scope, rows, now, hash))
            && multiset(Build(scope, rows, now, hash).sessions) == multiset(rows)
  {
    CursorLessIsOrdering();
    SortKeeps(rows, CursorLess);
  }

  /** Rebuilding from the same rows in another order gives the same list and epoch, so cursors go on as before. */
  lemma CursorSurvivesPermutation(scope: string, a: seq<Row>, b: seq<Row>, built: int, rebuilt: int, hash: Hash,
                                  cursor: Cursor, limit: int, now: int)
    requires UniqueIds(a) && UniqueIds(b) && multiset(a) == multiset(b)
    requires !cursor.NoCursor? && !SnapshotExpired(built, now) && !SnapshotExpired(rebuilt, now)
    ensures PageWithCursor(Some(Build(scope, a, built, hash)), cursor, limit, now) ==
            PageWithCursor(Some(Build(scope, b, rebuilt, hash)), cursor, limit, now)
  {
    CursorLessIsOrdering();
    SortIgnoresOrder(a, b, CursorLess);
    FingerprintIgnoresOrder(a, b);
    SameRowsSamePage(Build(scope, a, built, hash), Build(scope, b, rebuilt, hash), cursor, limit, now);
  }

  lemma SameRowsSamePage(a: Snapshot, b: Snapshot, cursor: Cursor, limit: int, now: int)
    requires a.sessions == b.sessions && a.epoch == b.epoch && !cursor.NoCursor?
    requires SnapshotExpired(a.createdAt, now) == SnapshotExpired(b.createdAt, now)
    ensures PageWithCursor(Some(a), cursor, limit, now) == PageWithCursor(Some(b), cursor, limit, now)
  {
  }

  /**
   * After any rebuild, a cursor is reported stale or continues with the same sessions at the same times as
   * before, when the hash tells texts apart and no id splits, at a line end it holds, into
   * rising parts.
   */
  lemma CursorContinuesOrIsStale(scope: string, a: seq<Row>, b: seq<Row>, built: int, rebuilt: int, hash: Hash,
                                 cursor: Cursor, limit: int, earlier: int, now: int)
    requires Injective(hash)
    requires UniqueIds(a) && UniqueIds(b) && PlainIds(a) && PlainIds(b) && !cursor.NoCursor?
    requires PageWithCursor(Some(Build(scope, a, built, hash)), cursor, limit, earlier).Rows?
    ensures var before := PageWithCursor(Some(Build(scope, a, built, hash)), cursor, limit, earlier);
            var after := PageWithCursor(Some(Build(scope, b, rebuilt, hash)), cursor, limit, now);
            after.Stale? || SamePage(before, after)
  {
    var snapA, snapB := Build(scope, a, built, hash), Build(scope, b, rebuilt, hash);
    if !PageWithCursor(Some(snapB), cursor, limit, now).Stale? {
      assert snapA.epoch == snapB.epoch;
      FingerprintTellsApart(a, b);
      SameKeysSortAlike(a, b);
      SameKeysSamePage(snapA, snapB, cursor, limit, earlier, now);
    }
  }

  predicate SamePage(a: Page, b: Page) {
    a.Rows? && b.Rows? && SameKeys(a.sessions, b.sessions) && a.hasMore == b.hasMore && a.next == b.next
  }

  lemma SameKeysSameSlice(a: Snapshot, b: Snapshot, start: nat, limit: nat)
    requires SameKeys(a.sessions, b.sessions) && a.epoch == b.epoch && limit > 0 && start <= |a.sessions|
    ensures SamePage(PageAt(a, start, limit), PageAt(b, start, limit))
  {
  }

  lemma SameKeysSamePage(a: Snapshot, b: Snapshot, cursor: Cursor, limit: int, earlier: int, now: int)
    requires SameKeys(a.sessions, b.sessions) && a.epoch == b.epoch && !cursor.NoCursor?
    requires PageWithCursor(Some(a), cursor, limit, earlier).Rows? && PageWithCursor(Some(b), cursor, limit, now).Rows?
    ensures SamePage(PageWithCursor(Some(a), cursor, limit, earlier), PageWithCursor(Some(b), cursor, limit, now))
  {
    SameKeysSameStart(a.sessions, b.sessions, cursor.updatedAtMillis, cursor.sessionId);
    SameKeysSameSlice(a, b, StartOf(a.sessions, cursor.updatedAtMillis, cursor.sessionId), EffectiveLimit(limit));
  }

  lemma {:induction false} SameKeysSameStart(a: seq<Row>, b: seq<Row>, updatedAt: int, id: string)
    requires SameKeys(a, b)
    ensures StartOf(a, updatedAt, id) == StartOf(b, updatedAt, id)
  {
    if a != [] { SameKeysSameStart(a[1..], b[1..], updatedAt, id); }
  }

  /** Rows that agree on keys in one order agree in the other. */
  lemma SameKeysSortAlike(a: seq<Row>, b: seq<Row>)
    requires UniqueIds(a) && UniqueIds(b) && SameKeys(SortBy(a, IdLess), SortBy(b, IdLess))
    ensures SameKeys(SortBy(a, CursorLess), SortBy(b, CursorLess))
  {
    IdLessIsOrdering();
    CursorLessIsOrdering();
    SortKeeps(a, IdLess);
    SortKeeps(b, IdLess);
    var p, q := SortBy(a, IdLess), SortBy(b, IdLess);
    SortedIsUniqueIds(p);
    SortedIsUniqueIds(q);
    SortIgnoresOrder(a, p, CursorLess);
    SortIgnoresOrder(b, q, CursorLess);
    SameKeysSort(p, q);
  }

  lemma SortedIsUniqueIds(rows: seq<Row>)
    requires Sorted(rows, IdLess)
    ensures UniqueIds(rows)
  {
    forall i, j | 0 <= i < j < |rows| ensures rows[i].id != rows[j].id {
      BeforeIrreflexive(rows[i].id);
    }
  }

  lemma {:induction false} SameKeysInsert(a: seq<Row>, b: seq<Row>, r: Row, q: Row)
    requires SameKeys(a, b) && r.id == q.id && r.updatedAt == q.updatedAt
    ensures SameKeys(Insert(a, r, CursorLess), Insert(b, q, CursorLess))
  {
    if a != [] && CursorLess(a[0], r) { SameKeysInsert(a[1..], b[1..], r, q); }
  }

  lemma {:induction false} SameKeysSort(a: seq<Row>, b: seq<Row>)
    requires SameKeys(a, b)
    ensures SameKeys(SortBy(a, CursorLess), SortBy(b, CursorLess))
  {
    if a != [] {
      SameKeysSort(a[1..], b[1..]);
      SameKeysInsert(SortBy(a[1..], CursorLess), SortBy(b[1..], CursorLess), a[0], b[0]);
    }
  }
}
