/**
 * The private ledger of consumed transcript bytes. A record is proposed against a copy of the ledger and
 * committed by compare-and-set on the revision; what a reader of the ledger sees is always what applying
 * the committed records one after the other produces.
 */
module SourceLedger {
  import opened Options

  const SCHEMA_VERSION: nat := 1

  datatype Cursor = Cursor(segmentStableKey: string, segmentGeneration: string, rawByteEnd: int,
                           membershipDigest: string)

  datatype Occurrence = Occurrence(
    sourceStateRev: nat,
    parentUuid: string,
    structuralKind: string,
    graphResolvedTurn: string,
    segmentStableKey: string,
    sourceGeneration: string,
    rawByteStart: int,
    rawByteEnd: int)

  datatype Contribution = Contribution(turnId: string, partId: string)

  datatype LogicalRecord = LogicalRecord(
    contentSequenceHash: string,
    semanticLifecycleHash: string,
    blockIds: seq<string>,
    contribution: Contribution)

  datatype State = State(
    schemaVersion: nat,
    sourceGeneration: string,
    sourceStateRev: nat,
    cursorVector: seq<Cursor>,
    skipNextResumeNoResponse: bool,
    graphNodes: map<string, seq<Occurrence>>,
    logicalRecords: map<string, LogicalRecord>)

  /** A row read from a transcript segment; blocks and lifecycle are raw JSON texts. */
  datatype Row = Row(
    uuid: string,
    parentUuid: string,
    structuralKind: string,
    graphResolvedTurn: string,
    segmentStableKey: string,
    segmentGeneration: string,
    sourceGeneration: string,
    rawByteStart: int,
    rawByteEnd: int,
    contentBlocks: seq<string>,
    semanticLifecycle: string,
    contribution: Contribution,
    controlOperation: string)

  /** Canonical JSON and the hashes over it. Any functions whose digests are not empty will do. */
  datatype Digests = Digests(
    canonical: string -> Option<string>,
    blockId: (string, nat, string) -> string,
    sequence: seq<string> -> string,
    lifecycle: string -> string,
    generation: string -> string,
    membership: (string, string, int) -> string)
  {
    ghost predicate Valid() {
      && (forall u, n, c :: blockId(u, n, c) != "")
      && (forall s :: sequence(s) != "")
      && (forall s :: lifecycle(s) != "")
      && (forall s :: generation(s) != "")
      && (forall a, b, c :: membership(a, b, c) != "")
    }
  }

  datatype Error =
    | InvalidState
    | StaleOrInvalidRow
    | GapOrGeneration
    | UnknownSegment
    | UuidMissing
    | OperationMissing
    | BadJson
    | ContributionMissing
    | NonMonotonic
    | StaleCas

  datatype Verdict = AcceptedProjection | AcceptedSourceOnly

  datatype Proposal = Proposal(
    baseGeneration: string,
    baseSourceStateRev: nat,
    next: State,
    verdict: Verdict,
    newBlockIds: seq<string>)

  // ---- Validation ----

  predicate CursorOk(c: Cursor) {
    c.segmentStableKey != "" && c.segmentGeneration != "" && c.membershipDigest != "" && c.rawByteEnd >= 0
  }

  predicate OccurrencesOk(generation: string, occs: seq<Occurrence>) {
    && (forall i | 0 <= i < |occs| ::
          && occs[i].sourceGeneration == generation && occs[i].segmentStableKey != ""
          && 0 <= occs[i].rawByteStart < occs[i].rawByteEnd)
    && (forall i | 0 < i < |occs| :: occs[i - 1].sourceStateRev < occs[i].sourceStateRev)
  }

  predicate RecordOk(r: LogicalRecord) {
    && r.contentSequenceHash != "" && r.semanticLifecycleHash != ""
    && r.contribution.turnId != "" && r.contribution.partId != ""
    && "" !in r.blockIds
  }

  predicate Valid(s: State) {
    && s.schemaVersion == SCHEMA_VERSION && s.sourceGeneration != ""
    && (forall i | 0 <= i < |s.cursorVector| :: CursorOk(s.cursorVector[i]))
    && (forall uuid | uuid in s.graphNodes :: uuid != "" && OccurrencesOk(s.sourceGeneration, s.graphNodes[uuid]))
    && (forall uuid | uuid in s.logicalRecords :: uuid != "" && RecordOk(s.logicalRecords[uuid]))
  }

  /** Validity made inductive: no occurrence is newer than the ledger itself. */
  predicate Sound(s: State) {
    && Valid(s)
    && forall uuid | uuid in s.graphNodes :: forall i | 0 <= i < |s.graphNodes[uuid]| ::
         s.graphNodes[uuid][i].sourceStateRev <= s.sourceStateRev
  }

  // ---- The transition ----

  /** The first cursor of a segment, -1 when there is none. */
  function CursorIndex(cursors: seq<Cursor>, segment: string): (i: int)
    ensures -1 <= i < |cursors|
    ensures i >= 0 ==> cursors[i].segmentStableKey == segment
    ensures forall j | 0 <= j < (if i < 0 then |cursors| else i) :: cursors[j].segmentStableKey != segment
  {
    if cursors == [] then -1
    else if cursors[0].segmentStableKey == segment then 0
    else
      var rest := CursorIndex(cursors[1..], segment);
      assert forall j | 0 < j < |cursors| :: cursors[j] == cursors[1..][j - 1];
      if rest < 0 then -1 else rest + 1
  }

  predicate RowWellFormed(s: State, row: Row) {
    && row.sourceGeneration == s.sourceGeneration && row.segmentStableKey != "" && row.segmentGeneration != ""
    && 0 <= row.rawByteStart < row.rawByteEnd
  }

  predicate GraphOnly(kind: string) {
    kind == "attachment" || kind == "system.stop_hook_summary" || kind == "system.api_error"
      || kind == "system.informational"
  }

  // An absent JSON value counts as null.
  function Canonical(d: Digests, raw: string): Option<string> {
    d.canonical(if raw == "" then "null" else raw)
  }

  /** The occurrence ids of the first n blocks, none when one of them is not JSON. */
  function BlockIds(d: Digests, uuid: string, blocks: seq<string>, n: nat): (ids: Option<seq<string>>)
    requires n <= |blocks|
    ensures ids.Some? ==> |ids.value| == n
  {
    if n == 0 then Some([])
    else
      var front := BlockIds(d, uuid, blocks, n - 1);
      var last := Canonical(d, blocks[n - 1]);
      if front.None? || last.None? then None
      else Some(front.value + [d.blockId(uuid, n - 1, last.value)])
  }

  predicate StrictPrefix(a: seq<string>, b: seq<string>) {
    |a| < |b| && a == b[..|a|]
  }

  /** The ledger after the row's bytes are consumed, before its content is looked at. */
  function Advanced(s: State, row: Row, at: nat): State
    requires at < |s.cursorVector|
  {
    s.(sourceStateRev := s.sourceStateRev + 1,
       cursorVector := s.cursorVector[at := s.cursorVector[at].(rawByteEnd := row.rawByteEnd)])
  }

  function OccurrenceOf(row: Row, rev: nat): Occurrence {
    Occurrence(rev, row.parentUuid, row.structuralKind, row.graphResolvedTurn, row.segmentStableKey,
               row.sourceGeneration, row.rawByteStart, row.rawByteEnd)
  }

  function WithOccurrence(s: State, row: Row): State {
    var occs := GetOr(s.graphNodes, row.uuid, []) + [OccurrenceOf(row, s.sourceStateRev)];
    s.(graphNodes := s.graphNodes[row.uuid := occs])
  }

  /** What the row adds to its logical record: the new record and the block ids not seen before. */
  function Content(d: Digests, s: State, row: Row): Result<Option<(LogicalRecord, seq<string>)>, Error> {
    var ids := BlockIds(d, row.uuid, row.contentBlocks, |row.contentBlocks|);
    if ids.None? then Err(BadJson)
    else
      var lifecycle := Canonical(d, row.semanticLifecycle);
      if lifecycle.None? then Err(BadJson)
      else
        var contentHash, lifecycleHash := d.sequence(ids.value), d.lifecycle(lifecycle.value);
        if row.uuid !in s.logicalRecords then
          if row.contribution.turnId == "" || row.contribution.partId == "" then Err(ContributionMissing)
          else Ok(Some((LogicalRecord(contentHash, lifecycleHash, ids.value, row.contribution), ids.value)))
        else
          var existing := s.logicalRecords[row.uuid];
          if existing.contentSequenceHash == contentHash && existing.semanticLifecycleHash == lifecycleHash then
            Ok(None)
          else if !StrictPrefix(existing.blockIds, ids.value) then Err(NonMonotonic)
          else
            Ok(Some((existing.(contentSequenceHash := contentHash, semanticLifecycleHash := lifecycleHash,
                               blockIds := ids.value),
                     ids.value[|existing.blockIds|..])))
  }

  function Transition(d: Digests, s: State, row: Row): Result<Proposal, Error> {
    if !Valid(s) then Err(InvalidState)
    else if !RowWellFormed(s, row) then Err(StaleOrInvalidRow)
    else
      var at := CursorIndex(s.cursorVector, row.segmentStableKey);
      if at < 0 then Err(UnknownSegment)
      else if s.cursorVector[at].segmentGeneration != row.segmentGeneration
        || s.cursorVector[at].rawByteEnd != row.rawByteStart then
        Err(GapOrGeneration)
      else
        var advanced := Advanced(s, row, at);
        if row.uuid == "" then
          if row.structuralKind != "queue-operation" && row.structuralKind != "last-prompt" then Err(UuidMissing)
          else if row.structuralKind == "queue-operation" && row.controlOperation == "" then Err(OperationMissing)
          else Ok(Proposal(s.sourceGeneration, s.sourceStateRev, advanced, AcceptedSourceOnly, []))
        else
          var seen := WithOccurrence(advanced, row);
          if GraphOnly(row.structuralKind) then
            Ok(Proposal(s.sourceGeneration, s.sourceStateRev, seen, AcceptedSourceOnly, []))
          else
            match Content(d, s, row)
            case Err(e) => Err(e)
            case Ok(None) => Ok(Proposal(s.sourceGeneration, s.sourceStateRev, seen, AcceptedSourceOnly, []))
            case Ok(Some((record, added))) =>
              Ok(Proposal(s.sourceGeneration, s.sourceStateRev,
                          seen.(logicalRecords := seen.logicalRecords[row.uuid := record]), AcceptedProjection, added))
  }

  /** The ledger of a session whose first transcript segment was read up to the admission cut. */
  function Initial(d: Digests, segment: string, generation: string, admissionCut: int): Result<State, Error> {
    if segment == "" || generation == "" || admissionCut < 0 then Err(InvalidState)
    else
      Ok(State(SCHEMA_VERSION, d.generation(segment), 0,
               [Cursor(segment, generation, admissionCut, d.membership(segment, generation, admissionCut))],
               false, map[], map[]))
  }

  lemma InitialIsSound(d: Digests, segment: string, generation: string, admissionCut: int)
    requires d.Valid()
    ensures Initial(d, segment, generation, admissionCut).Ok? <==>
            segment != "" && generation != "" && admissionCut >= 0
    ensures Initial(d, segment, generation, admissionCut).Ok? ==>
            Sound(Initial(d, segment, generation, admissionCut).value)
  {
  }

  // ---- One transition ----

  lemma {:induction false} BlockIdsNonEmpty(d: Digests, uuid: string, blocks: seq<string>, n: nat)
    requires d.Valid() && n <= |blocks|
    ensures BlockIds(d, uuid, blocks, n).Some? ==> "" !in BlockIds(d, uuid, blocks, n).value
  {
    if n > 0 { BlockIdsNonEmpty(d, uuid, blocks, n - 1); }
  }

  lemma ContentOk(d: Digests, s: State, row: Row)
    requires d.Valid() && Valid(s)
    ensures Content(d, s, row).Ok? && Content(d, s, row).value.Some? ==> RecordOk(Content(d, s, row).value.value.0)
  {
    BlockIdsNonEmpty(d, row.uuid, row.contentBlocks, |row.contentBlocks|);
  }

  lemma AdvancedIsSound(s: State, row: Row, at: nat)
    requires Sound(s) && at < |s.cursorVector| && row.rawByteEnd >= 0
    ensures Sound(Advanced(s, row, at))
  {
  }

  lemma WithOccurrenceIsSound(s: State, row: Row, advanced: State)
    requires Sound(advanced) && row.uuid != "" && RowWellFormed(advanced, row)
    requires s.graphNodes == advanced.graphNodes && advanced.sourceStateRev == s.sourceStateRev + 1 && Sound(s)
    ensures Sound(WithOccurrence(advanced, row))
  {
    var next := WithOccurrence(advanced, row);
    var before := GetOr(s.graphNodes, row.uuid, []);
    var occs := before + [OccurrenceOf(row, advanced.sourceStateRev)];
    assert row.uuid in s.graphNodes ==> OccurrencesOk(s.sourceGeneration, s.graphNodes[row.uuid]);
    assert row.uuid in advanced.graphNodes ==> OccurrencesOk(advanced.sourceGeneration, advanced.graphNodes[row.uuid]);
    assert OccurrencesOk(advanced.sourceGeneration, occs);
    forall uuid | uuid in next.graphNodes
      ensures uuid != "" && OccurrencesOk(next.sourceGeneration, next.graphNodes[uuid])
      ensures forall i | 0 <= i < |next.graphNodes[uuid]| ::
                next.graphNodes[uuid][i].sourceStateRev <= next.sourceStateRev
    {
      if uuid != row.uuid {
        assert uuid in advanced.graphNodes;
      }
    }
  }

  /** Soundness is preserved, the revision grows by one, and the ledger stays on its generation. */
  lemma TransitionIsSound(d: Digests, s: State, row: Row)
    requires d.Valid() && Sound(s) && Transition(d, s, row).Ok?
    ensures var p := Transition(d, s, row).value;
            && Sound(p.next)
            && p.next.sourceStateRev == s.sourceStateRev + 1 && p.next.sourceGeneration == s.sourceGeneration
            && p.baseSourceStateRev == s.sourceStateRev && p.baseGeneration == s.sourceGeneration
  {
    var at := CursorIndex(s.cursorVector, row.segmentStableKey);
    var advanced := Advanced(s, row, at);
    AdvancedIsSound(s, row, at);
    ContentOk(d, s, row);
    if row.uuid != "" {
      WithOccurrenceIsSound(s, row, advanced);
    }
  }

  /** The row's uuid is new, or what it was last seen at is no newer than the ledger. */
  predicate SeenInOrder(s: State, uuid: string) {
    var occs := GetOr(s.graphNodes, uuid, []);
    occs == [] || occs[|occs| - 1].sourceStateRev <= s.sourceStateRev
  }

  lemma AdvancedIsValid(s: State, row: Row, at: nat)
    requires Valid(s) && at < |s.cursorVector| && row.rawByteEnd >= 0
    ensures Valid(Advanced(s, row, at)) && Advanced(s, row, at).graphNodes == s.graphNodes
  {
  }

  lemma OccurrencesSnocIff(generation: string, occs: seq<Occurrence>, o: Occurrence)
    requires OccurrencesOk(generation, occs)
    requires o.sourceGeneration == generation && o.segmentStableKey != "" && 0 <= o.rawByteStart < o.rawByteEnd
    ensures OccurrencesOk(generation, occs + [o]) <==>
            occs == [] || occs[|occs| - 1].sourceStateRev < o.sourceStateRev
  {
    var all, n := occs + [o], |occs|;
    assert forall i | 0 <= i < n :: all[i] == occs[i];
    if n > 0 && OccurrencesOk(generation, all) {
      assert all[n - 1].sourceStateRev < all[n].sourceStateRev;
    }
  }

  lemma OccurrenceKeepsValidIff(s: State, row: Row, advanced: State)
    requires Valid(s) && Valid(advanced) && row.uuid != "" && RowWellFormed(advanced, row)
    requires s.graphNodes == advanced.graphNodes && advanced.sourceStateRev == s.sourceStateRev + 1
    ensures Valid(WithOccurrence(advanced, row)) <==> SeenInOrder(s, row.uuid)
  {
    var next, before := WithOccurrence(advanced, row), GetOr(s.graphNodes, row.uuid, []);
    var o := OccurrenceOf(row, advanced.sourceStateRev);
    assert OccurrencesOk(advanced.sourceGeneration, before);
    OccurrencesSnocIff(advanced.sourceGeneration, before, o);
    assert next.graphNodes == advanced.graphNodes[row.uuid := before + [o]];
    assert Valid(next) <==> OccurrencesOk(next.sourceGeneration, next.graphNodes[row.uuid]);
  }

  /** From a valid ledger an accepted row leaves a valid one exactly when its uuid was last seen no later than now. */
  lemma ValidityKeptIff(d: Digests, s: State, row: Row)
    requires d.Valid() && Valid(s) && Transition(d, s, row).Ok?
    ensures Valid(Transition(d, s, row).value.next) <==> row.uuid == "" || SeenInOrder(s, row.uuid)
  {
    var advanced := Advanced(s, row, CursorIndex(s.cursorVector, row.segmentStableKey));
    AdvancedIsValid(s, row, CursorIndex(s.cursorVector, row.segmentStableKey));
    ContentOk(d, s, row);
    if row.uuid != "" {
      OccurrenceKeepsValidIff(s, row, advanced);
    }
  }

  /** So validity alone is not inductive: a row re-read at an occurrence from the future breaks the order. */
  lemma ValidityAloneIsNotInductive(d: Digests)
    requires d.Valid()
    ensures exists s, row :: Valid(s) && Transition(d, s, row).Ok? && !Valid(Transition(d, s, row).value.next)
  {
    var future := Occurrence(7, "", "attachment", "", "a", "g", 0, 1);
    var s := State(SCHEMA_VERSION, "g", 0, [Cursor("a", "g", 1, "m")], false, map["u" := [future]], map[]);
    var row := Row("u", "", "attachment", "", "a", "g", "g", 1, 2, [], "", Contribution("", ""), "");
    assert Valid(s) && CursorIndex(s.cursorVector, "a") == 0;
    ValidityKeptIff(d, s, row);
    assert Valid(s) && Transition(d, s, row).Ok? && !Valid(Transition(d, s, row).value.next);
  }

  /** A transition moves one cursor, from where the row starts to where it ends, and no other. */
  lemma TransitionMovesOneCursor(d: Digests, s: State, row: Row)
    requires Transition(d, s, row).Ok?
    ensures var next := Transition(d, s, row).value.next;
            var at := CursorIndex(s.cursorVector, row.segmentStableKey);
            && at >= 0 && s.cursorVector[at].rawByteEnd == row.rawByteStart && row.rawByteStart < row.rawByteEnd
            && s.cursorVector[at].segmentGeneration == row.segmentGeneration
            && next.cursorVector == s.cursorVector[at := s.cursorVector[at].(rawByteEnd := row.rawByteEnd)]
  {
  }

  function BlocksOf(s: State, uuid: string): seq<string> {
    if uuid in s.logicalRecords then s.logicalRecords[uuid].blockIds else []
  }

  /** New content extends the record's block list by exactly the blocks it adds. */
  lemma ContentExtends(d: Digests, s: State, row: Row)
    ensures Content(d, s, row).Ok? && Content(d, s, row).value.Some? ==>
              Content(d, s, row).value.value.0.blockIds == BlocksOf(s, row.uuid) + Content(d, s, row).value.value.1
  {
  }

  /** The records a transition leaves: its own rewritten by new content, or all as they were and nothing added. */
  lemma TransitionRecords(d: Digests, s: State, row: Row)
    requires Transition(d, s, row).Ok?
    ensures var p, content := Transition(d, s, row).value, Content(d, s, row);
            if p.verdict == AcceptedProjection then
              && content.Ok? && content.value.Some? && p.newBlockIds == content.value.value.1
              && p.next.logicalRecords == s.logicalRecords[row.uuid := content.value.value.0]
            else p.newBlockIds == [] && p.next.logicalRecords == s.logicalRecords
  {
  }

  /** A transition appends its new block ids to its own record's list and touches no other list. */
  lemma TransitionAppendsBlocks(d: Digests, s: State, row: Row)
    requires Transition(d, s, row).Ok?
    ensures var p := Transition(d, s, row).value;
            && BlocksOf(p.next, row.uuid) == BlocksOf(s, row.uuid) + p.newBlockIds
            && (forall uuid | uuid != row.uuid :: BlocksOf(p.next, uuid) == BlocksOf(s, uuid))
            && (p.newBlockIds == [] || p.verdict == AcceptedProjection)
  {
    ContentExtends(d, s, row);
    TransitionRecords(d, s, row);
    assert BlocksOf(s, row.uuid) + [] == BlocksOf(s, row.uuid);
  }

  // ---- What a row is taken for ----

  lemma {:induction false} BlockIdsAt(d: Digests, uuid: string, blocks: seq<string>, n: nat)
    requires n <= |blocks|
    ensures var ids := BlockIds(d, uuid, blocks, n);
            && (ids.Some? <==> forall i | 0 <= i < n :: Canonical(d, blocks[i]).Some?)
            && (ids.Some? ==>
                  forall i | 0 <= i < n :: ids.value[i] == d.blockId(uuid, i, Canonical(d, blocks[i]).value))
  {
    if n > 0 { BlockIdsAt(d, uuid, blocks, n - 1); }
  }

  /** After a row with content its record lists the row's own blocks, each by its uuid, place and canonical text. */
  lemma RecordListsBlocks(d: Digests, s: State, row: Row)
    requires Transition(d, s, row).Ok? && Transition(d, s, row).value.verdict == AcceptedProjection
    ensures var ids, blocks := BlocksOf(Transition(d, s, row).value.next, row.uuid), row.contentBlocks;
            && |ids| == |blocks|
            && forall i | 0 <= i < |blocks| ::
                 Canonical(d, blocks[i]).Some? && ids[i] == d.blockId(row.uuid, i, Canonical(d, blocks[i]).value)
  {
    BlockIdsAt(d, row.uuid, row.contentBlocks, |row.contentBlocks|);
    ContentExtends(d, s, row);
    TransitionRecords(d, s, row);
  }

  /** A row with an identity leaves one occurrence of itself, at the new revision; one without leaves none. */
  lemma TransitionNotesOccurrence(d: Digests, s: State, row: Row)
    requires Transition(d, s, row).Ok?
    ensures var next := Transition(d, s, row).value.next;
            var seen := Occurrence(s.sourceStateRev + 1, row.parentUuid, row.structuralKind, row.graphResolvedTurn,
                                   row.segmentStableKey, row.sourceGeneration, row.rawByteStart, row.rawByteEnd);
            && next.graphNodes == (if row.uuid == "" then s.graphNodes
                                   else s.graphNodes[row.uuid := GetOr(s.graphNodes, row.uuid, []) + [seen]])
            && next.schemaVersion == s.schemaVersion && next.skipNextResumeNoResponse == s.skipNextResumeNoResponse
  {
  }

  /** The row comes next in its segment: of the ledger's generation, from where the segment's first cursor stands. */
  ghost predicate ComesNext(s: State, row: Row) {
    && Valid(s) && row.sourceGeneration == s.sourceGeneration && row.segmentGeneration != ""
    && row.segmentStableKey != "" && 0 <= row.rawByteStart < row.rawByteEnd
    && exists at :: 0 <= at < |s.cursorVector| && StandsAt(s.cursorVector, at, row)
  }

  ghost predicate StandsAt(cursors: seq<Cursor>, at: int, row: Row)
    requires 0 <= at < |cursors|
  {
    && cursors[at].segmentStableKey == row.segmentStableKey && cursors[at].segmentGeneration == row.segmentGeneration
    && cursors[at].rawByteEnd == row.rawByteStart
    && forall j | 0 <= j < at :: cursors[j].segmentStableKey != row.segmentStableKey
  }

  lemma ComesNextIff(s: State, row: Row)
    ensures ComesNext(s, row) <==>
            && Valid(s) && RowWellFormed(s, row)
            && var at := CursorIndex(s.cursorVector, row.segmentStableKey);
               at >= 0 && s.cursorVector[at].segmentGeneration == row.segmentGeneration
               && s.cursorVector[at].rawByteEnd == row.rawByteStart
  {
    var at := CursorIndex(s.cursorVector, row.segmentStableKey);
    if ComesNext(s, row) {
      var k :| 0 <= k < |s.cursorVector| && StandsAt(s.cursorVector, k, row);
      assert at == k;
    } else if at >= 0 {
      assert !(Valid(s) && RowWellFormed(s, row) && StandsAt(s.cursorVector, at, row));
    }
  }

  /** The row carries no content of its own: what follows a turn, or is no part of one. */
  predicate NoContent(kind: string) {
    kind in {"attachment", "system.stop_hook_summary", "system.api_error", "system.informational"}
  }

  /** Blocks and lifecycle are JSON, and go on from the record there is, or found one for a named turn and part. */
  ghost predicate GoesOn(d: Digests, s: State, row: Row) {
    var lifecycle := Canonical(d, row.semanticLifecycle);
    var ids := BlockIds(d, row.uuid, row.contentBlocks, |row.contentBlocks|);
    && lifecycle.Some? && ids.Some?
    && if row.uuid !in s.logicalRecords then row.contribution.turnId != "" && row.contribution.partId != ""
       else
         var record := s.logicalRecords[row.uuid];
         || (record.contentSequenceHash == d.sequence(ids.value)
             && record.semanticLifecycleHash == d.lifecycle(lifecycle.value))
         || (|record.blockIds| < |ids.value| && record.blockIds == ids.value[..|record.blockIds|])
  }

  /** When a row is accepted, branch by branch, over every ledger and row. */
  lemma AcceptedIff(d: Digests, s: State, row: Row)
    ensures Transition(d, s, row).Ok? <==>
            && ComesNext(s, row)
            && if row.uuid == "" then
                 row.structuralKind == "last-prompt"
                 || (row.structuralKind == "queue-operation" && row.controlOperation != "")
               else NoContent(row.structuralKind) || GoesOn(d, s, row)
  {
    ComesNextIff(s, row);
  }

  /** Another reading of the same content: whatever else differs, its blocks and lifecycle are those of the row. */
  predicate SameContent(row: Row, again: Row) {
    && again.uuid == row.uuid != "" && again.contentBlocks == row.contentBlocks
    && again.semanticLifecycle == row.semanticLifecycle
    && !NoContent(row.structuralKind) && !NoContent(again.structuralKind)
  }

  lemma CommittedContentIsKnown(d: Digests, s: State, row: Row, again: Row)
    requires Transition(d, s, row).Ok? && SameContent(row, again)
    ensures Content(d, Transition(d, s, row).value.next, again) == Ok(None)
  {
    TransitionRecords(d, s, row);
  }

  /** Content read again right after it was committed is accepted, announces nothing and leaves every record. */
  lemma ReReadAnnouncesNothing(d: Digests, s: State, row: Row, again: Row)
    requires Transition(d, s, row).Ok? && SameContent(row, again)
    requires ComesNext(Transition(d, s, row).value.next, again)
    ensures var next := Transition(d, s, row).value.next;
            var r := Transition(d, next, again);
            && r.Ok? && r.value.newBlockIds == [] && r.value.verdict == AcceptedSourceOnly
            && r.value.next.logicalRecords == next.logicalRecords
  {
    var next := Transition(d, s, row).value.next;
    CommittedContentIsKnown(d, s, row, again);
    ComesNextIff(next, again);
  }
}
