/** The ledger as the program keeps it: checks and searches in loops, and a commit through a pointer. */
module LedgerStore {
  import opened Options
  import opened SourceLedger
  import opened LedgerRuns

  class Ledger {
    var state: State

    constructor (state: State)
      ensures this.state == state
    {
      this.state := state;
    }

    /** Compare-and-set: replaces the whole state, or leaves it as it was. */
    method Commit(proposal: Proposal) returns (r: Result<(), Error>)
      modifies this
      ensures r.Ok? <==> CommitTransition(old(state), proposal).Ok?
      ensures state == if r.Ok? then CommitTransition(old(state), proposal).value else old(state)
      ensures r.Ok? <==>
        && old(state).sourceGeneration == proposal.baseGeneration
        && old(state).sourceStateRev == proposal.baseSourceStateRev
      ensures r.Ok? ==> state == proposal.next
    {
      if state.sourceGeneration != proposal.baseGeneration || state.sourceStateRev != proposal.baseSourceStateRev {
        return Err(StaleCas);
      }
      state := proposal.next;
      r := Ok(());
    }
  }

  method CheckOccurrences(generation: string, occs: seq<Occurrence>) returns (ok: bool)
    ensures ok == OccurrencesOk(generation, occs)
  {
    var previous: nat := 0;
    for index := 0 to |occs|
      invariant forall i | 0 <= i < index ::
        occs[i].sourceGeneration == generation && occs[i].segmentStableKey != ""
        && 0 <= occs[i].rawByteStart < occs[i].rawByteEnd
      invariant forall i | 0 < i < index :: occs[i - 1].sourceStateRev < occs[i].sourceStateRev
      invariant index > 0 ==> previous == occs[index - 1].sourceStateRev
    {
      var occ := occs[index];
      if occ.sourceGeneration != generation || occ.segmentStableKey == "" || occ.rawByteStart < 0
         || occ.rawByteEnd <= occ.rawByteStart || (index > 0 && occ.sourceStateRev <= previous) {
        return false;
      }
      previous := occ.sourceStateRev;
    }
    ok := true;
  }

  method CheckRecord(record: LogicalRecord) returns (ok: bool)
    ensures ok == RecordOk(record)
  {
    if record.contentSequenceHash == "" || record.semanticLifecycleHash == ""
       || record.contribution.turnId == "" || record.contribution.partId == "" {
      return false;
    }
    for i := 0 to |record.blockIds|
      invariant "" !in record.blockIds[..i]
    {
      if record.blockIds[i] == "" {
        return false;
      }
    }
    assert record.blockIds[..|record.blockIds|] == record.blockIds;
    ok := true;
  }

  method Validate(s: State) returns (ok: bool)
    ensures ok == Valid(s)
  {
    if s.schemaVersion != SCHEMA_VERSION || s.sourceGeneration == "" {
      return false;
    }
    for i := 0 to |s.cursorVector|
      invariant forall j | 0 <= j < i :: CursorOk(s.cursorVector[j])
    {
      if !CursorOk(s.cursorVector[i]) {
        return false;
      }
    }
    var nodes := s.graphNodes.Keys;
    while nodes != {}
      invariant nodes <= s.graphNodes.Keys
      invariant forall uuid | uuid in s.graphNodes.Keys - nodes ::
                  uuid != "" && OccurrencesOk(s.sourceGeneration, s.graphNodes[uuid])
      decreases nodes
    {
      var uuid :| uuid in nodes;
      var good := CheckOccurrences(s.sourceGeneration, s.graphNodes[uuid]);
      if uuid == "" || !good {
        return false;
      }
      nodes := nodes - {uuid};
    }
    var records := s.logicalRecords.Keys;
    while records != {}
      invariant records <= s.logicalRecords.Keys
      invariant forall uuid | uuid in s.logicalRecords.Keys - records :: uuid != "" && RecordOk(s.logicalRecords[uuid])
      decreases records
    {
      var uuid :| uuid in records;
      var good := CheckRecord(s.logicalRecords[uuid]);
      if uuid == "" || !good {
        return false;
      }
      records := records - {uuid};
    }
    ok := true;
  }

  method FindCursor(cursors: seq<Cursor>, segment: string) returns (at: int)
    ensures at == CursorIndex(cursors, segment)
  {
    for index := 0 to |cursors|
      invariant forall j | 0 <= j < index :: cursors[j].segmentStableKey != segment
    {
      if cursors[index].segmentStableKey == segment {
        return index;
      }
    }
    at := -1;
  }

  method HashBlocks(d: Digests, uuid: string, blocks: seq<string>) returns (ids: Option<seq<string>>)
    ensures ids == BlockIds(d, uuid, blocks, |blocks|)
  {
    var hashed: seq<string> := [];
    for ordinal := 0 to |blocks|
      invariant BlockIds(d, uuid, blocks, ordinal) == Some(hashed)
    {
      var canonical := Canonical(d, blocks[ordinal]);
      if canonical.None? {
        BadBlockStops(d, uuid, blocks, ordinal, |blocks|);
        return None;
      }
      hashed := hashed + [d.blockId(uuid, ordinal, canonical.value)];
    }
    ids := Some(hashed);
  }

  // One block that is not JSON fails the whole row.
  lemma {:induction false} BadBlockStops(d: Digests, uuid: string, blocks: seq<string>, bad: nat, n: nat)
    requires bad < n <= |blocks| && Canonical(d, blocks[bad]).None?
    ensures BlockIds(d, uuid, blocks, n).None?
    decreases n
  {
    if bad < n - 1 { BadBlockStops(d, uuid, blocks, bad, n - 1); }
  }

  method ExtendsStrictly(before: seq<string>, after: seq<string>) returns (ok: bool)
    ensures ok == StrictPrefix(before, after)
  {
    if |before| >= |after| {
      return false;
    }
    for index := 0 to |before|
      invariant before[..index] == after[..index]
    {
      if before[index] != after[index] {
        return false;
      }
    }
    ok := true;
  }

  method ProposeContent(d: Digests, s: State, row: Row) returns (r: Result<Option<(LogicalRecord, seq<string>)>, Error>)
    ensures r == Content(d, s, row)
  {
    var blockIds := HashBlocks(d, row.uuid, row.contentBlocks);
    if blockIds.None? {
      return Err(BadJson);
    }
    var lifecycle := Canonical(d, row.semanticLifecycle);
    if lifecycle.None? {
      return Err(BadJson);
    }
    var contentHash, lifecycleHash := d.sequence(blockIds.value), d.lifecycle(lifecycle.value);
    if row.uuid !in s.logicalRecords {
      if row.contribution.turnId == "" || row.contribution.partId == "" {
        return Err(ContributionMissing);
      }
      return Ok(Some((LogicalRecord(contentHash, lifecycleHash, blockIds.value, row.contribution), blockIds.value)));
    }
    var existing := s.logicalRecords[row.uuid];
    if existing.contentSequenceHash == contentHash && existing.semanticLifecycleHash == lifecycleHash {
      return Ok(None);
    }
    var monotone := ExtendsStrictly(existing.blockIds, blockIds.value);
    if !monotone {
      return Err(NonMonotonic);
    }
    var added := blockIds.value[|existing.blockIds|..];
    existing :=
      existing.(contentSequenceHash := contentHash, semanticLifecycleHash := lifecycleHash, blockIds := blockIds.value);
    r := Ok(Some((existing, added)));
  }

  /** Computes a proposal on a copy; the ledger it was computed from is not touched. */
  method Propose(d: Digests, current: State, row: Row) returns (r: Result<Proposal, Error>)
    ensures r == Transition(d, current, row)
  {
    var ok := Validate(current);
    if !ok {
      return Err(InvalidState);
    }
    if row.sourceGeneration != current.sourceGeneration || row.segmentStableKey == "" || row.segmentGeneration == ""
       || row.rawByteStart < 0 || row.rawByteEnd <= row.rawByteStart {
      return Err(StaleOrInvalidRow);
    }
    var at := FindCursor(current.cursorVector, row.segmentStableKey);
    if at < 0 {
      return Err(UnknownSegment);
    }
    var cursor := current.cursorVector[at];
    if cursor.segmentGeneration != row.segmentGeneration || cursor.rawByteEnd != row.rawByteStart {
      return Err(GapOrGeneration);
    }
    var next := current.(sourceStateRev := current.sourceStateRev + 1,
                         cursorVector := current.cursorVector[at := cursor.(rawByteEnd := row.rawByteEnd)]);
    if row.uuid == "" {
      if row.structuralKind != "queue-operation" && row.structuralKind != "last-prompt" {
        return Err(UuidMissing);
      }
      if row.structuralKind == "queue-operation" && row.controlOperation == "" {
        return Err(OperationMissing);
      }
      return Ok(Proposal(current.sourceGeneration, current.sourceStateRev, next, AcceptedSourceOnly, []));
    }
    next := next.(graphNodes := next.graphNodes[row.uuid :=
      GetOr(next.graphNodes, row.uuid, []) + [OccurrenceOf(row, next.sourceStateRev)]]);
    if GraphOnly(row.structuralKind) {
      return Ok(Proposal(current.sourceGeneration, current.sourceStateRev, next, AcceptedSourceOnly, []));
    }
    var content := ProposeContent(d, current, row);
    match content {
      case Err(e) =>
        return Err(e);
      case Ok(None) =>
        return Ok(Proposal(current.sourceGeneration, current.sourceStateRev, next, AcceptedSourceOnly, []));
      case Ok(Some(update)) =>
        next := next.(logicalRecords := next.logicalRecords[row.uuid := update.0]);
        return Ok(Proposal(current.sourceGeneration, current.sourceStateRev, next, AcceptedProjection, update.1));
    }
  }
}
