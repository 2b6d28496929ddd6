/** Paging over a frozen snapshot of wire rows: the cursor names a row, native order decides the rest. */
module WirePaging {
  import opened CatalogCursor
  import opened CursorWalk
  import opened Options
  import opened Sequences
  import opened Text

  /** A catalog row: the fields the semantic fingerprint covers, and the rest of its payload. */
  datatype Row = Row(id: string, updatedAtMillis: int, directory: string, projectId: string, title: string,
                     payload: string)

  /** The visibility contract a snapshot belongs to. */
  datatype Scope = Scope(backendId: string, global: bool, directory: string, rootsOnly: bool, view: string)

  datatype Snapshot = Snapshot(scope: Scope, generation: nat, epoch: string, createdAt: int, rows: seq<Row>)

  datatype PageResult =
    | Page(rows: seq<Row>, next: Cursor, hasMore: bool)
    | Stale(reason: StaleReason)
    | MalformedCursor

  predicate ScopeOk(s: Scope) {
    s.backendId != "" && s.global == (s.directory == "")
  }

  function Flag(b: bool): string {
    if b then "1" else "0"
  }

  function ViewName(s: Scope): string {
    if s.view == "" then "standard" else s.view
  }

  function Identity(s: Scope): string {
    var nul := [0 as char];
    s.backendId + nul + Flag(s.global) + nul + s.directory + nul + Flag(s.rootsOnly) + nul + ViewName(s)
  }

  function TrimmedIds(rows: seq<Row>): (ids: seq<string>)
    ensures |ids| == |rows| && forall i | 0 <= i < |rows| :: ids[i] == Trim(rows[i].id)
  {
    seq(|rows|, i requires 0 <= i < |rows| => Trim(rows[i].id))
  }

  /** Every row has an id, and no two the same one. */
  predicate RowsOk(rows: seq<Row>) {
    "" !in TrimmedIds(rows) && NoRepeats(TrimmedIds(rows))
  }

  method ValidateRows(rows: seq<Row>) returns (ok: bool)
    ensures ok <==> RowsOk(rows)
  {
    var seen: set<string> := {};
    ghost var ids := TrimmedIds(rows);
    for index := 0 to |rows|
      invariant forall id :: id in seen <==> id in ids[..index]
      invariant "" !in ids[..index] && NoRepeats(ids[..index])
    {
      var id := Trim(rows[index].id);
      assert id == ids[index] && ids[..index + 1] == ids[..index] + [id];
      if id == "" {
        return false;
      }
      if id in seen {
        ghost var k :| 0 <= k < index && ids[k] == id;
        return false;
      }
      seen := seen + {id};
    }
    assert ids[..|rows|] == ids;
    ok := true;
  }

  function ViewOf(snap: Option<Snapshot>): Option<View> {
    if snap.None? then None else Some(View(snap.value.epoch, snap.value.createdAt))
  }

  /** The position of the row a cursor names, -1 when the snapshot has no such row. */
  function AnchorOf(rows: seq<Row>, id: string): (at: int)
    ensures -1 <= at < |rows|
    ensures at >= 0 ==> rows[at].id == id
    ensures at < 0 ==> forall i | 0 <= i < |rows| :: rows[i].id != id
  {
    if rows == [] then -1
    else if rows[0].id == id then 0
    else
      var rest := AnchorOf(rows[1..], id);
      assert forall i | 0 < i < |rows| :: rows[i] == rows[1..][i - 1];
      if rest < 0 then -1 else rest + 1
  }

  function PageEnd(rows: seq<Row>, start: int, limit: int): (end: int)
    requires 0 <= start <= |rows|
    ensures start <= end <= |rows|
  {
    if limit <= 0 || start + limit > |rows| then |rows| else start + limit
  }

  function NextCursor(snap: Snapshot, page: seq<Row>, hasMore: bool): Cursor {
    if !hasMore || page == [] then NoCursor
    else V2(snap.epoch, page[|page| - 1].updatedAtMillis, page[|page| - 1].id)
  }

  function PageFrom(snap: Snapshot, start: int, limit: int): PageResult
    requires 0 <= start <= |snap.rows|
  {
    var end := PageEnd(snap.rows, start, limit);
    var rows := snap.rows[start..end];
    var hasMore := limit > 0 && |snap.rows| > end;
    Page(rows, NextCursor(snap, rows, hasMore), hasMore)
  }

  /** One page. Without a cursor the snapshot was just fetched; with one it is whatever the cache holds. */
  function SlicePage(snap: Option<Snapshot>, cursor: Cursor, limit: int, now: int): PageResult
    requires cursor.NoCursor? ==> snap.Some?
  {
    if cursor.NoCursor? then PageFrom(snap.value, 0, limit)
    else if cursor.Malformed? then MalformedCursor
    else
      var stale := ValidateCursor(cursor, ViewOf(snap), now);
      if stale.Some? then Stale(stale.value)
      else
        var anchor := AnchorOf(snap.value.rows, cursor.sessionId);
        if anchor < 0 then Stale(EpochMismatch) else PageFrom(snap.value, anchor + 1, limit)
  }

  method Slice(snap: Option<Snapshot>, cursor: Cursor, limit: int, now: int) returns (r: PageResult)
    requires cursor.NoCursor? ==> snap.Some?
    ensures r == SlicePage(snap, cursor, limit, now)
  {
    var start := 0;
    if cursor.Malformed? {
      return MalformedCursor;
    }
    if !cursor.NoCursor? {
      var stale := ValidateCursor(cursor, ViewOf(snap), now);
      if stale.Some? {
        return Stale(stale.value);
      }
      var anchor := FindAnchor(snap.value.rows, cursor.sessionId);
      if anchor < 0 {
        return Stale(EpochMismatch);
      }
      start := anchor + 1;
    }
    var rows := snap.value.rows;
    var end := start + limit;
    if limit <= 0 || end > |rows| {
      end := |rows|;
    }
    var page := rows[start..end];
    var hasMore := limit > 0 && |rows| > end;
    r := Page(page, NextCursor(snap.value, page, hasMore), hasMore);
  }

  method FindAnchor(rows: seq<Row>, id: string) returns (at: int)
    ensures at == AnchorOf(rows, id)
  {
    for i := 0 to |rows|
      invariant AnchorOf(rows, id) == if AnchorOf(rows[i..], id) < 0 then -1 else AnchorOf(rows[i..], id) + i
    {
      assert rows[i..][1..] == rows[i + 1..];
      if rows[i].id == id {
        return i;
      }
    }
    at := -1;
  }

  // ---- What a page request is answered ----

  /** A request with a cursor is malformed, or stale for the first of the reasons that applies, or sliced. */
  lemma CursorIsAnswered(snap: Option<Snapshot>, cursor: Cursor, limit: int, now: int)
    requires !cursor.NoCursor?
    ensures var r := SlicePage(snap, cursor, limit, now);
            if cursor.Malformed? then r == MalformedCursor
            else if cursor.V1? then r == Stale(CursorIsV1)
            else if snap.None? then r == Stale(NoSnapshot)
            else if snap.value.createdAt == 0 || now > snap.value.createdAt + 600_000 then r == Stale(Expired)
            else if snap.value.epoch != cursor.epoch then r == Stale(EpochMismatch)
            else if forall i | 0 <= i < |snap.value.rows| :: snap.value.rows[i].id != cursor.sessionId then
              r == Stale(EpochMismatch)
            else r.Page?
  {
    if snap.Some? && cursor.V2? && AnchorOf(snap.value.rows, cursor.sessionId) >= 0 {
      assert snap.value.rows[AnchorOf(snap.value.rows, cursor.sessionId)].id == cursor.sessionId;
    }
  }

  /** A page has as many rows as the limit allows, all of them without one, and its cursor names the last of them. */
  lemma PageHolds(snap: Snapshot, start: nat, limit: int)
    requires start <= |snap.rows|
    ensures var page, left := PageFrom(snap, start, limit), |snap.rows| - start;
            if 0 < limit < left then
              && page.rows == snap.rows[start..start + limit] && page.hasMore
              && page.next == V2(snap.epoch, snap.rows[start + limit - 1].updatedAtMillis,
                                 snap.rows[start + limit - 1].id)
            else page == Page(snap.rows[start..], NoCursor, false)
  {
  }

  // ---- Following the cursors ----

  /** Looking a row up by its id finds that row. */
  ghost predicate Anchored(rows: seq<Row>) {
    forall at | 0 <= at < |rows| :: AnchorOf(rows, rows[at].id) == at
  }

  lemma ValidRowsAreAnchored(rows: seq<Row>)
    requires RowsOk(rows)
    ensures Anchored(rows)
  {
    var ids := TrimmedIds(rows);
    forall at | 0 <= at < |rows| ensures AnchorOf(rows, rows[at].id) == at {
      var found := AnchorOf(rows, rows[at].id);
      assert found >= 0 ==> ids[found] == ids[at];
    }
  }

  ghost predicate Frozen(snap: Snapshot) {
    Anchored(snap.rows) && snap.createdAt != 0
  }

  /** A page that starts at a row and announces more is continued exactly where it ended. */
  lemma NextPageContinues(snap: Snapshot, start: nat, limit: int, limit': int, now: int)
    requires Frozen(snap) && start <= |snap.rows| && !SnapshotExpired(snap.createdAt, now)
    ensures var page := PageFrom(snap, start, limit);
            && (page.hasMore <==> 0 < limit < |snap.rows| - start)
            && (page.hasMore ==>
                  && |page.rows| == limit
                  && page.next.V2?
                  && SlicePage(Some(snap), page.next, limit', now) == PageFrom(snap, start + limit, limit'))
            && (!page.hasMore ==> page.next == NoCursor && page.rows == snap.rows[start..])
  {
    var page := PageFrom(snap, start, limit);
    if page.hasMore {
      assert AnchorOf(snap.rows, snap.rows[start + limit - 1].id) == start + limit - 1;
      assert page.rows[limit - 1] == snap.rows[start + limit - 1];
    }
  }

  /** The page at each position. */
  function PagesOf(snap: Snapshot, limit: int): nat -> PageResult {
    (k: nat) => if k <= |snap.rows| && limit > 0 then PageFrom(snap, k, limit) else MalformedCursor
  }

  /** A client that fetches pages, the n-th one at its own time. */
  function ClientOf(snap: Snapshot, limit: int, now: nat -> int): Client<PageResult, Row> {
    Client((p: PageResult) => if p.Page? then PageRead(p.rows, p.next.V2?) else NoPage,
           (n: nat, p: PageResult) => if p.Page? then SlicePage(Some(snap), p.next, limit, now(n)) else p)
  }

  ghost predicate PageRun(snap: Snapshot, limit: int, now: nat -> int, pages: seq<PageResult>) {
    Chain(ClientOf(snap, limit, now), SlicePage(Some(snap), NoCursor, limit, now(0)), pages)
  }

  ghost predicate Live(snap: Snapshot, now: nat -> int) {
    Frozen(snap) && forall n :: !SnapshotExpired(snap.createdAt, now(n))
  }

  lemma PageWalks(snap: Snapshot, limit: int, now: nat -> int, k: nat)
    requires Live(snap, now) && limit > 0 && k <= |snap.rows|
    ensures WalksAt(ClientOf(snap, limit, now), PagesOf(snap, limit), snap.rows, limit, k)
  {
    NextPageContinues(snap, k, limit, limit, now(0));
    forall n: nat | PageFrom(snap, k, limit).next.V2?
      ensures ClientOf(snap, limit, now).follow(n, PageFrom(snap, k, limit)) == PagesOf(snap, limit)(k + limit)
    {
      NextPageContinues(snap, k, limit, limit, now(n));
    }
  }

  lemma SnapshotWalks(snap: Snapshot, limit: int, now: nat -> int)
    requires Live(snap, now) && limit > 0
    ensures Walks(ClientOf(snap, limit, now), PagesOf(snap, limit), snap.rows, limit)
  {
    forall k: nat | k <= |snap.rows| {
      PageWalks(snap, limit, now, k);
    }
  }

  /**
   * Paging loses nothing and repeats nothing. Following the cursors never takes more pages than there are
   * rows plus one, and once a page comes without a cursor the pages concatenate to the frozen list.
   */
  lemma PagesConcatenate(snap: Snapshot, limit: int, now: nat -> int, pages: seq<PageResult>)
    requires RowsOk(snap.rows) && snap.createdAt != 0 && (forall n :: !SnapshotExpired(snap.createdAt, now(n)))
    requires limit > 0 && PageRun(snap, limit, now, pages)
    ensures |pages| <= |snap.rows| + 1 && pages[|pages| - 1].Page?
    ensures pages[|pages| - 1].next == NoCursor ==> AllRows(ClientOf(snap, limit, now), pages) == snap.rows
    ensures pages[|pages| - 1].next != NoCursor ==> exists p :: PageRun(snap, limit, now, pages + [p])
  {
    ValidRowsAreAnchored(snap.rows);
    SnapshotWalks(snap, limit, now);
    var client, at := ClientOf(snap, limit, now), PagesOf(snap, limit);
    assert at(0) == SlicePage(Some(snap), NoCursor, limit, now(0));
    ChainConcatenates(client, pages, at, snap.rows, limit);
    LastHasCursor(client, pages, at, snap, limit, now);
    if pages[|pages| - 1].next != NoCursor {
      var p := ChainContinues(client, at(0), pages);
      assert PageRun(snap, limit, now, pages + [p]);
    }
  }

  /** The last page of a chain names a cursor of version 2 or none. */
  lemma LastHasCursor(client: Client<PageResult, Row>, pages: seq<PageResult>, at: nat -> PageResult, snap: Snapshot,
                      limit: int, now: nat -> int)
    requires limit > 0 && client == ClientOf(snap, limit, now) && at == PagesOf(snap, limit)
    requires Walks(client, at, snap.rows, limit) && Chain(client, at(0), pages)
    ensures pages[|pages| - 1].Page? && (pages[|pages| - 1].next.V2? || pages[|pages| - 1].next == NoCursor)
  {
    var start := ChainPosition(client, pages, at, snap.rows, limit);
  }

  // ---- Cursors across rebuilds and scopes ----

  datatype Semantics = Semantics(id: string, updatedAtMillis: int, directory: string, projectId: string, title: string)

  function SemanticsOf(rows: seq<Row>): (s: seq<Semantics>)
    ensures |s| == |rows|
    ensures forall i | 0 <= i < |rows| ::
      s[i] == Semantics(rows[i].id, rows[i].updatedAtMillis, rows[i].directory, rows[i].projectId, rows[i].title)
  {
    seq(|rows|, i requires 0 <= i < |rows| =>
      Semantics(rows[i].id, rows[i].updatedAtMillis, rows[i].directory, rows[i].projectId, rows[i].title))
  }

  function Ids(rows: seq<Row>): (ids: seq<string>)
    ensures |ids| == |rows| && forall i | 0 <= i < |rows| :: ids[i] == rows[i].id
  {
    seq(|rows|, i requires 0 <= i < |rows| => rows[i].id)
  }

  /** How an epoch is derived from a scope's identity and the rows' semantics. */
  type EpochOf = (string, seq<Semantics>) -> string

  ghost predicate Injective(e: EpochOf) {
    forall a, s, b, t :: e(a, s) == e(b, t) ==> a == b && s == t
  }

  ghost predicate BuiltWith(snap: Snapshot, e: EpochOf) {
    RowsOk(snap.rows) && snap.epoch == e(Identity(snap.scope), SemanticsOf(snap.rows))
  }

  lemma {:induction false} SameIdsSameAnchor(a: seq<Row>, b: seq<Row>, id: string)
    requires Ids(a) == Ids(b)
    ensures |a| == |b| && AnchorOf(a, id) == AnchorOf(b, id)
  {
    assert |Ids(a)| == |Ids(b)|;
    if a != [] {
      assert a[0].id == Ids(a)[0] == Ids(b)[0] == b[0].id;
      assert Ids(a[1..]) == Ids(a)[1..] && Ids(b[1..]) == Ids(b)[1..];
      SameIdsSameAnchor(a[1..], b[1..], id);
    }
  }

  /** A scope the separator of its identity does not occur in, as none of a program's backends and paths does. */
  predicate NulFree(s: Scope) {
    var nul := 0 as char;
    Free(s.backendId, nul) && Free(s.directory, nul) && Free(s.view, nul)
  }

  lemma JoinFromRight(s: seq<string>, c: char)
    requires |s| == 5
    ensures s[0] + [c] + s[1] + [c] + s[2] + [c] + s[3] + [c] + s[4] ==
            s[0] + [c] + (s[1] + [c] + (s[2] + [c] + (s[3] + [c] + s[4])))
  {
  }

  /** Five texts joined by a character none of the first four has are told apart by the joined text. */
  lemma JoinTellsParts(s: seq<string>, t: seq<string>, c: char)
    requires |s| == |t| == 5 && forall i | 0 <= i < 4 :: Free(s[i], c) && Free(t[i], c)
    requires s[0] + [c] + s[1] + [c] + s[2] + [c] + s[3] + [c] + s[4] ==
             t[0] + [c] + t[1] + [c] + t[2] + [c] + t[3] + [c] + t[4]
    ensures s[0] == t[0] && s[1] == t[1] && s[2] == t[2] && s[3] == t[3] && s[4] == t[4]
  {
    JoinFromRight(s, c);
    JoinFromRight(t, c);
    var s3, t3 := s[3] + [c] + s[4], t[3] + [c] + t[4];
    var s2, t2 := s[2] + [c] + s3, t[2] + [c] + t3;
    SplitFirst(s[0], s[1] + [c] + s2, t[0], t[1] + [c] + t2, c);
    SplitFirst(s[1], s2, t[1], t2, c);
    SplitFirst(s[2], s3, t[2], t3, c);
    SplitFirst(s[3], s[4], t[3], t[4], c);
  }

  /** What two scopes of one visibility contract have in common; the unnamed view is the standard one. */
  predicate SameContract(a: Scope, b: Scope) {
    && a.backendId == b.backendId && a.global == b.global && a.directory == b.directory && a.rootsOnly == b.rootsOnly
    && (a.view == b.view || (a.view in ["", "standard"] && b.view in ["", "standard"]))
  }

  lemma IdentityParts(a: Scope) returns (s: seq<string>)
    requires NulFree(a)
    ensures |s| == 5 && forall i | 0 <= i < 4 :: Free(s[i], 0 as char)
    ensures s[0] == a.backendId && s[1] == Flag(a.global) && s[2] == a.directory && s[3] == Flag(a.rootsOnly)
    ensures s[4] == ViewName(a)
    ensures var c := 0 as char; Identity(a) == s[0] + [c] + s[1] + [c] + s[2] + [c] + s[3] + [c] + s[4]
  {
    s := [a.backendId, Flag(a.global), a.directory, Flag(a.rootsOnly), ViewName(a)];
  }

  lemma FlagTells(a: bool, b: bool)
    ensures Flag(a) == Flag(b) <==> a == b
  {
    assert Flag(true)[0] != Flag(false)[0];
  }

  lemma SameNameIff(a: Scope, b: Scope)
    ensures ViewName(a) == ViewName(b) <==>
            a.view == b.view || (a.view in ["", "standard"] && b.view in ["", "standard"])
  {
  }

  /** Such scopes have one identity exactly when they are of one contract. */
  lemma IdentityTellsScopes(a: Scope, b: Scope)
    requires NulFree(a) && NulFree(b)
    ensures Identity(a) == Identity(b) <==> SameContract(a, b)
  {
    SameNameIff(a, b);
    FlagTells(a.global, b.global);
    FlagTells(a.rootsOnly, b.rootsOnly);
    if Identity(a) == Identity(b) {
      var s := IdentityParts(a);
      var t := IdentityParts(b);
      JoinTellsParts(s, t, 0 as char);
    }
  }

  /**
   * A cursor handed out by one snapshot and presented later, to a rebuilt snapshot or to another scope's,
   * is either reported stale or answered with the same row identities it would have had on its own
   * snapshot; and it is never honoured outside its own scope.
   */
  lemma CursorSurvivesOrIsStale(e: EpochOf, issued: Snapshot, start: nat, limit: int, later: Option<Snapshot>,
                                limit': int, now: int)
    requires Injective(e) && BuiltWith(issued, e) && issued.createdAt != 0
             && (later.Some? ==> BuiltWith(later.value, e))
    requires start <= |issued.rows| && PageFrom(issued, start, limit).hasMore
    ensures var r := SlicePage(later, PageFrom(issued, start, limit).next, limit', now);
            || r.Stale?
            || (r.Page? && later.Some? && Identity(later.value.scope) == Identity(issued.scope)
                && Ids(r.rows) == Ids(PageFrom(issued, start + limit, limit').rows))
  {
    ValidRowsAreAnchored(issued.rows);
    NextPageContinues(issued, start, limit, limit', issued.createdAt);
    var cursor := PageFrom(issued, start, limit).next;
    if later.Some? && later.value.epoch == issued.epoch {
      EpochsAgree(e, issued, later.value);
      SameIdsSameSlice(issued, later.value, start, limit, limit', now);
    }
  }

  lemma EpochsAgree(e: EpochOf, a: Snapshot, b: Snapshot)
    requires Injective(e) && BuiltWith(a, e) && BuiltWith(b, e) && a.epoch == b.epoch
    ensures Identity(a.scope) == Identity(b.scope) && Ids(a.rows) == Ids(b.rows)
  {
    SameSemanticsSameIds(a.rows, b.rows);
  }

  lemma SameIdsSameSlice(issued: Snapshot, later: Snapshot, start: nat, limit: int, limit': int, now: int)
    requires Frozen(issued) && Ids(issued.rows) == Ids(later.rows) && issued.epoch == later.epoch
    requires start <= |issued.rows| && PageFrom(issued, start, limit).hasMore
    ensures var r := SlicePage(Some(later), PageFrom(issued, start, limit).next, limit', now);
            r.Stale?
            || (start + limit <= |issued.rows| && r.Page?
                && Ids(r.rows) == Ids(PageFrom(issued, start + limit, limit').rows))
  {
    NextPageContinues(issued, start, limit, limit', issued.createdAt);
    var cursor := PageFrom(issued, start, limit).next;
    SameIdsSameAnchor(later.rows, issued.rows, cursor.sessionId);
    assert AnchorOf(issued.rows, issued.rows[start + limit - 1].id) == start + limit - 1;
    assert cursor.sessionId == issued.rows[start + limit - 1].id;
    SameIdsSamePage(later, issued, start + limit, limit');
  }

  lemma SameSemanticsSameIds(a: seq<Row>, b: seq<Row>)
    requires SemanticsOf(a) == SemanticsOf(b)
    ensures Ids(a) == Ids(b)
  {
    assert |a| == |SemanticsOf(a)| == |b|;
    forall i | 0 <= i < |a| ensures a[i].id == b[i].id {
      assert SemanticsOf(a)[i].id == SemanticsOf(b)[i].id;
    }
  }

  lemma SameIdsSamePage(a: Snapshot, b: Snapshot, start: nat, limit: int)
    requires Ids(a.rows) == Ids(b.rows) && start <= |a.rows| == |b.rows|
    ensures Ids(PageFrom(a, start, limit).rows) == Ids(PageFrom(b, start, limit).rows)
  {
    var end := PageEnd(a.rows, start, limit);
    forall i | start <= i < end ensures a.rows[i].id == b.rows[i].id {
      assert Ids(a.rows)[i] == Ids(b.rows)[i];
    }
  }
}
