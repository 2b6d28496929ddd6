/** The opaque list cursor of version 2 and the verdict on whether it may still slice a snapshot. */
module CatalogCursor {
  import opened Options

  // Milliseconds; 0 is the zero time.
  const SNAPSHOT_TTL: int := 10 * 60 * 1000

  /** A decoded cursor argument: absent, a version 1 cursor, a version 2 cursor, or not a cursor at all. */
  datatype Cursor =
    | NoCursor
    | V1
    | V2(epoch: string, updatedAtMillis: int, sessionId: string)
    | Malformed

  datatype StaleReason = CursorIsV1 | NoSnapshot | Expired | EpochMismatch

  /** The part of a snapshot the verdict reads. */
  datatype View = View(epoch: string, createdAt: int)

  predicate SnapshotExpired(createdAt: int, now: int) {
    createdAt == 0 || now - createdAt > SNAPSHOT_TTL
  }

  function ValidateCursor(cursor: Cursor, view: Option<View>, now: int): Option<StaleReason>
    requires cursor.V1? || cursor.V2?
  {
    if cursor.V1? then Some(CursorIsV1)
    else if view.None? then Some(NoSnapshot)
    else if SnapshotExpired(view.value.createdAt, now) then Some(Expired)
    else if cursor.epoch != view.value.epoch then Some(EpochMismatch)
    else None
  }

  /** A cursor slices exactly the live snapshots of its own epoch. */
  lemma CursorAcceptedIff(cursor: Cursor, view: Option<View>, now: int)
    requires cursor.V1? || cursor.V2?
    ensures ValidateCursor(cursor, view, now) == None <==>
            cursor.V2? && view.Some? && view.value.epoch == cursor.epoch && view.value.createdAt != 0
            && now <= view.value.createdAt + 600_000
  {
  }
}
