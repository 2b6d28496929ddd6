/** Every interleaving of proposals and commits on one ledger, measured against sequential application. */
module LedgerRuns {
  import opened Options
  import opened SourceLedger

  /** How proposals are computed. The interleaving argument needs no more of it than `RuleOk`. */
  type Rule = (State, Row) -> Result<Proposal, Error>

  /** One proposal moves the cursor of the row's segment from the row's start to its end, and no other. */
  ghost predicate CursorStep(s: State, row: Row, next: State) {
    var at := CursorIndex(s.cursorVector, row.segmentStableKey);
    && at >= 0 && s.cursorVector[at].rawByteEnd == row.rawByteStart < row.rawByteEnd
    && next.cursorVector == s.cursorVector[at := s.cursorVector[at].(rawByteEnd := row.rawByteEnd)]
  }

  /** One proposal appends its new block ids to the row's own record. */
  ghost predicate BlockStep(s: State, row: Row, added: seq<string>, next: State) {
    && BlocksOf(next, row.uuid) == BlocksOf(s, row.uuid) + added
    && (forall uuid | uuid != row.uuid :: BlocksOf(next, uuid) == BlocksOf(s, uuid))
  }

  /** One proposal raises the revision by one on the same generation. */
  ghost predicate RevisionStep(s: State, p: Proposal) {
    && p.next.sourceStateRev == s.sourceStateRev + 1 && p.next.sourceGeneration == s.sourceGeneration
    && p.baseSourceStateRev == s.sourceStateRev && p.baseGeneration == s.sourceGeneration
  }

  ghost predicate LedgerStep(s: State, row: Row, p: Proposal) {
    RevisionStep(s, p) && CursorStep(s, row, p.next) && BlockStep(s, row, p.newBlockIds, p.next)
  }

  /** The ledger states the argument is about; `Sound` in the end. */
  type Good = State -> bool

  ghost predicate RuleOk(t: Rule, good: Good) {
    forall s, row | good(s) && t(s, row).Ok? :: good(t(s, row).value.next) && LedgerStep(s, row, t(s, row).value)
  }

  function TransitionRule(d: Digests): Rule {
    (s, row) => Transition(d, s, row)
  }

  function SoundState(): Good {
    s => Sound(s)
  }

  lemma TransitionRuleOk(d: Digests)
    requires d.Valid()
    ensures RuleOk(TransitionRule(d), SoundState())
  {
    forall s, row | SoundState()(s) && TransitionRule(d)(s, row).Ok?
      ensures SoundState()(TransitionRule(d)(s, row).value.next) && LedgerStep(s, row, TransitionRule(d)(s, row).value)
    {
      TransitionStep(d, s, row);
    }
  }

  lemma TransitionStep(d: Digests, s: State, row: Row)
    requires d.Valid() && Sound(s) && Transition(d, s, row).Ok?
    ensures Sound(Transition(d, s, row).value.next) && LedgerStep(s, row, Transition(d, s, row).value)
  {
    TransitionIsSound(d, s, row);
    TransitionMovesOneCursor(d, s, row);
    TransitionAppendsBlocks(d, s, row);
  }

  datatype Proposed = Proposed(row: Row, proposal: Proposal)

  /** `history` holds every ledger state so far; a proposer may still be working from any of them. */
  datatype System = System(history: seq<State>, outstanding: seq<Proposed>, committed: seq<Proposed>)

  datatype Step =
    | Propose(row: Row, base: nat)
    | Commit(choice: nat)

  function Current(sys: System): State
    requires sys.history != []
  {
    sys.history[|sys.history| - 1]
  }

  function CommitTransition(s: State, p: Proposal): Result<State, Error> {
    if s.sourceGeneration != p.baseGeneration || s.sourceStateRev != p.baseSourceStateRev then Err(StaleCas)
    else Ok(p.next)
  }

  function Next(t: Rule, sys: System, step: Step): System
    requires sys.history != []
  {
    match step
    case Propose(row, base) =>
      if base >= |sys.history| || t(sys.history[base], row).Err? then sys
      else sys.(outstanding := sys.outstanding + [Proposed(row, t(sys.history[base], row).value)])
    case Commit(k) =>
      if k >= |sys.outstanding| then sys
      else
        match CommitTransition(Current(sys), sys.outstanding[k].proposal)
        case Err(_) => sys
        case Ok(s) => sys.(history := sys.history + [s], committed := sys.committed + [sys.outstanding[k]])
  }

  function Run(t: Rule, s0: State, steps: seq<Step>): (sys: System)
    ensures sys.history != []
  {
    if steps == [] then System([s0], [], [])
    else Next(t, Run(t, s0, steps[..|steps| - 1]), steps[|steps| - 1])
  }

  ghost predicate ProposedFrom(t: Rule, history: seq<State>, q: Proposed) {
    exists b :: 0 <= b < |history| && t(history[b], q.row) == Ok(q.proposal)
  }

  /** Each committed proposal was computed from the very state it replaced. */
  ghost predicate Serial(t: Rule, sys: System) {
    && |sys.history| == |sys.committed| + 1
    && forall i | 0 <= i < |sys.committed| ::
         && t(sys.history[i], sys.committed[i].row) == Ok(sys.committed[i].proposal)
         && sys.committed[i].proposal.next == sys.history[i + 1]
  }

  /** Good states from s0 on, of one generation, numbered by their revisions. */
  ghost predicate HistoryOk(good: Good, s0: State, history: seq<State>) {
    && history != [] && history[0] == s0
    && forall i | 0 <= i < |history| ::
         && good(history[i]) && history[i].sourceStateRev == s0.sourceStateRev + i
         && history[i].sourceGeneration == s0.sourceGeneration
  }

  ghost predicate AllProposed(t: Rule, history: seq<State>, outstanding: seq<Proposed>) {
    forall k | 0 <= k < |outstanding| :: ProposedFrom(t, history, outstanding[k])
  }

  ghost predicate Inv(t: Rule, good: Good, s0: State, sys: System) {
    HistoryOk(good, s0, sys.history) && AllProposed(t, sys.history, sys.outstanding) && Serial(t, sys)
  }

  /** The swap only accepts a proposal computed from the current state: revisions number the history. */
  lemma SwapBaseIsCurrent(t: Rule, good: Good, s0: State, sys: System, q: Proposed)
    requires RuleOk(t, good) && Inv(t, good, s0, sys) && ProposedFrom(t, sys.history, q)
    requires CommitTransition(Current(sys), q.proposal).Ok?
    ensures t(Current(sys), q.row) == Ok(q.proposal)
  {
    var b :| 0 <= b < |sys.history| && t(sys.history[b], q.row) == Ok(q.proposal);
    assert RevisionStep(sys.history[b], q.proposal);
    assert b == |sys.history| - 1;
  }

  lemma ProposedFromLonger(t: Rule, history: seq<State>, s: State, q: Proposed)
    requires ProposedFrom(t, history, q)
    ensures ProposedFrom(t, history + [s], q)
  {
    var b :| 0 <= b < |history| && t(history[b], q.row) == Ok(q.proposal);
    assert (history + [s])[b] == history[b];
  }

  lemma HistoryGrows(good: Good, s0: State, history: seq<State>, next: State)
    requires HistoryOk(good, s0, history) && good(next) && next.sourceGeneration == s0.sourceGeneration
    requires next.sourceStateRev == history[|history| - 1].sourceStateRev + 1
    ensures HistoryOk(good, s0, history + [next])
  {
  }

  lemma SerialGrows(t: Rule, sys: System, q: Proposed)
    requires Serial(t, sys) && t(Current(sys), q.row) == Ok(q.proposal)
    ensures Serial(t, sys.(history := sys.history + [q.proposal.next], committed := sys.committed + [q]))
  {
    var history, committed := sys.history + [q.proposal.next], sys.committed + [q];
    forall i | 0 <= i < |committed|
      ensures t(history[i], committed[i].row) == Ok(committed[i].proposal)
              && committed[i].proposal.next == history[i + 1]
    {
      if i < |sys.committed| {
        assert t(sys.history[i], sys.committed[i].row) == Ok(sys.committed[i].proposal);
      }
    }
  }

  lemma CommitKeepsInv(t: Rule, good: Good, s0: State, sys: System, k: nat)
    requires RuleOk(t, good) && Inv(t, good, s0, sys) && k < |sys.outstanding|
    requires CommitTransition(Current(sys), sys.outstanding[k].proposal).Ok?
    ensures Inv(t, good, s0, Next(t, sys, Commit(k)))
  {
    var q := sys.outstanding[k];
    var next := q.proposal.next;
    SwapBaseIsCurrent(t, good, s0, sys, q);
    assert good(Current(sys)) && good(next) && RevisionStep(Current(sys), q.proposal);
    HistoryGrows(good, s0, sys.history, next);
    SerialGrows(t, sys, q);
    forall j | 0 <= j < |sys.outstanding| ensures ProposedFrom(t, sys.history + [next], sys.outstanding[j]) {
      ProposedFromLonger(t, sys.history, next, sys.outstanding[j]);
    }
  }

  lemma ProposeKeepsInv(t: Rule, good: Good, s0: State, sys: System, row: Row, base: nat)
    requires Inv(t, good, s0, sys)
    ensures Inv(t, good, s0, Next(t, sys, Propose(row, base)))
  {
    if base < |sys.history| && t(sys.history[base], row).Ok? {
      var q := Proposed(row, t(sys.history[base], row).value);
      assert ProposedFrom(t, sys.history, q);
    }
  }

  lemma {:induction false} RunKeepsInv(t: Rule, good: Good, s0: State, steps: seq<Step>)
    requires RuleOk(t, good) && good(s0)
    ensures Inv(t, good, s0, Run(t, s0, steps))
  {
    if steps != [] {
      var sys := Run(t, s0, steps[..|steps| - 1]);
      RunKeepsInv(t, good, s0, steps[..|steps| - 1]);
      match steps[|steps| - 1]
      case Propose(row, base) => ProposeKeepsInv(t, good, s0, sys, row, base);
      case Commit(k) =>
        if k < |sys.outstanding| && CommitTransition(Current(sys), sys.outstanding[k].proposal).Ok? {
          CommitKeepsInv(t, good, s0, sys, k);
        }
    }
  }

  /** Applying rows one after the other, skipping none: an error stops the ledger. */
  function ApplyRows(t: Rule, s: State, rows: seq<Row>): Result<State, Error> {
    if rows == [] then Ok(s)
    else
      match ApplyRows(t, s, rows[..|rows| - 1])
      case Err(e) => Err(e)
      case Ok(s') =>
        match t(s', rows[|rows| - 1])
        case Err(e) => Err(e)
        case Ok(p) => Ok(p.next)
  }

  function RowsOf(qs: seq<Proposed>): (rows: seq<Row>)
    ensures |rows| == |qs| && forall i | 0 <= i < |rows| :: rows[i] == qs[i].row
  {
    seq(|qs|, i requires 0 <= i < |qs| => qs[i].row)
  }

  lemma {:induction false} SerialIsSequential(t: Rule, sys: System, n: nat)
    requires Serial(t, sys) && n <= |sys.committed|
    ensures ApplyRows(t, sys.history[0], RowsOf(sys.committed)[..n]) == Ok(sys.history[n])
  {
    if n > 0 {
      SerialIsSequential(t, sys, n - 1);
      assert RowsOf(sys.committed)[..n][..n - 1] == RowsOf(sys.committed)[..n - 1];
      assert t(sys.history[n - 1], sys.committed[n - 1].row) == Ok(sys.committed[n - 1].proposal);
    }
  }

  /**
   * Ledger safety: in every interleaving each reachable state is sound, the current one is what the
   * committed rows produce in sequence, and no two commits share a base revision.
   */
  lemma LedgerSafety(d: Digests, s0: State, steps: seq<Step>)
    requires d.Valid() && Sound(s0)
    ensures var sys := Run(TransitionRule(d), s0, steps);
            && (forall i | 0 <= i < |sys.history| :: Sound(sys.history[i]))
            && ApplyRows(TransitionRule(d), s0, RowsOf(sys.committed)) == Ok(Current(sys))
            && (forall i, j | 0 <= i < j < |sys.committed| ::
                  sys.committed[i].proposal.baseSourceStateRev < sys.committed[j].proposal.baseSourceStateRev)
  {
    var sys := Run(TransitionRule(d), s0, steps);
    TransitionRuleOk(d);
    RunKeepsInv(TransitionRule(d), SoundState(), s0, steps);
    SerialIsSequential(TransitionRule(d), sys, |sys.committed|);
    assert RowsOf(sys.committed)[..|sys.committed|] == RowsOf(sys.committed);
    forall i | 0 <= i < |sys.committed| ensures sys.committed[i].proposal.baseSourceStateRev == s0.sourceStateRev + i {
      assert SoundState()(sys.history[i])
             && TransitionRule(d)(sys.history[i], sys.committed[i].row) == Ok(sys.committed[i].proposal);
    }
  }

  // ---- Byte coverage ----

  function RowsOfSegment(qs: seq<Proposed>, segment: string): seq<Row> {
    if qs == [] then []
    else
      var row := qs[|qs| - 1].row;
      RowsOfSegment(qs[..|qs| - 1], segment) + if row.segmentStableKey == segment then [row] else []
  }

  ghost predicate Tiles(rows: seq<Row>, from: int, to: int) {
    if rows == [] then from == to
    else
      var last := rows[|rows| - 1];
      last.rawByteStart < last.rawByteEnd == to && Tiles(rows[..|rows| - 1], from, last.rawByteStart)
  }

  lemma {:induction false} SameSegmentsSameIndex(a: seq<Cursor>, b: seq<Cursor>, segment: string)
    requires |a| == |b| && forall i | 0 <= i < |a| :: a[i].segmentStableKey == b[i].segmentStableKey
    ensures CursorIndex(a, segment) == CursorIndex(b, segment)
  {
    if a != [] { SameSegmentsSameIndex(a[1..], b[1..], segment); }
  }

  /** What each commit of a run did to the cursors and to one record's blocks. */
  lemma CommitEffects(t: Rule, good: Good, s0: State, sys: System, uuid: string)
    requires RuleOk(t, good) && Inv(t, good, s0, sys)
    ensures forall i | 0 <= i < |sys.committed| :: CursorStep(sys.history[i], sys.committed[i].row, sys.history[i + 1])
    ensures forall i | 0 <= i < |sys.committed| ::
      BlocksOf(sys.history[i + 1], uuid) == BlocksOf(sys.history[i], uuid) + NewFor(sys.committed[i], uuid)
  {
    forall i | 0 <= i < |sys.committed|
      ensures CursorStep(sys.history[i], sys.committed[i].row, sys.history[i + 1])
      ensures BlocksOf(sys.history[i + 1], uuid) == BlocksOf(sys.history[i], uuid) + NewFor(sys.committed[i], uuid)
    {
      assert good(sys.history[i]) && t(sys.history[i], sys.committed[i].row) == Ok(sys.committed[i].proposal);
      assert LedgerStep(sys.history[i], sys.committed[i].row, sys.committed[i].proposal);
    }
  }

  /** The cursors a step leaves belong to the same segments. */
  ghost predicate SameSegments(a: seq<Cursor>, b: seq<Cursor>) {
    |a| == |b| && forall i | 0 <= i < |a| :: a[i].segmentStableKey == b[i].segmentStableKey
  }

  lemma RowsOfSegmentSnoc(qs: seq<Proposed>, q: Proposed, segment: string)
    ensures RowsOfSegment(qs + [q], segment) ==
            RowsOfSegment(qs, segment) + if q.row.segmentStableKey == segment then [q.row] else []
  {
    assert (qs + [q])[..|qs|] == qs;
  }

  lemma TilesSnoc(rows: seq<Row>, row: Row, from: int)
    requires Tiles(rows, from, row.rawByteStart) && row.rawByteStart < row.rawByteEnd
    ensures Tiles(rows + [row], from, row.rawByteEnd)
  {
    assert (rows + [row])[..|rows|] == rows;
  }

  /** One committed step extends the tiling of its own segment and leaves the others'. */
  lemma StepTiles(first: seq<Cursor>, s: State, q: Proposed, next: State, qs: seq<Proposed>, segment: string)
    requires SameSegments(first, s.cursorVector) && CursorStep(s, q.row, next)
    requires var at := CursorIndex(first, segment);
             at >= 0 ==> Tiles(RowsOfSegment(qs, segment), first[at].rawByteEnd, s.cursorVector[at].rawByteEnd)
    ensures SameSegments(first, next.cursorVector)
    ensures var at := CursorIndex(first, segment);
            at >= 0 ==> Tiles(RowsOfSegment(qs + [q], segment), first[at].rawByteEnd, next.cursorVector[at].rawByteEnd)
  {
    var at := CursorIndex(first, segment);
    SameSegmentsSameIndex(first, s.cursorVector, q.row.segmentStableKey);
    RowsOfSegmentSnoc(qs, q, segment);
    if at >= 0 && q.row.segmentStableKey == segment {
      TilesSnoc(RowsOfSegment(qs, segment), q.row, first[at].rawByteEnd);
    } else {
      assert RowsOfSegment(qs, segment) + [] == RowsOfSegment(qs, segment);
    }
  }

  lemma {:induction false} SegmentsTiled(sys: System, n: nat, segment: string)
    requires |sys.history| == |sys.committed| + 1 && n <= |sys.committed|
    requires forall i | 0 <= i < |sys.committed| :: CursorStep(sys.history[i], sys.committed[i].row, sys.history[i + 1])
    ensures SameSegments(sys.history[0].cursorVector, sys.history[n].cursorVector)
    ensures var before, after := sys.history[0].cursorVector, sys.history[n].cursorVector;
            var at := CursorIndex(before, segment);
            at >= 0 ==> Tiles(RowsOfSegment(sys.committed[..n], segment), before[at].rawByteEnd, after[at].rawByteEnd)
  {
    if n > 0 {
      SegmentsTiled(sys, n - 1, segment);
      assert CursorStep(sys.history[n - 1], sys.committed[n - 1].row, sys.history[n - 1 + 1]);
      StepTiles(sys.history[0].cursorVector, sys.history[n - 1], sys.committed[n - 1], sys.history[n],
                sys.committed[..n - 1], segment);
      assert sys.committed[..n] == sys.committed[..n - 1] + [sys.committed[n - 1]];
    }
  }

  ghost predicate Covered(rows: seq<Row>, b: int) {
    exists k :: 0 <= k < |rows| && rows[k].rawByteStart <= b < rows[k].rawByteEnd
  }

  /** The rows lie in [from, to), in order and without overlap, and every byte of it is in one of them. */
  ghost predicate CoveredOnce(rows: seq<Row>, from: int, to: int) {
    && from <= to
    && (forall k | 0 <= k < |rows| :: from <= rows[k].rawByteStart < rows[k].rawByteEnd <= to)
    && (forall k, m | 0 <= k < m < |rows| :: rows[k].rawByteEnd <= rows[m].rawByteStart)
    && (forall b | from <= b < to :: Covered(rows, b))
  }

  lemma {:induction false} TilesBounds(rows: seq<Row>, from: int, to: int)
    requires Tiles(rows, from, to)
    ensures CoveredOnce(rows, from, to)
  {
    if rows != [] {
      var front, last := rows[..|rows| - 1], rows[|rows| - 1];
      TilesBounds(front, from, last.rawByteStart);
      forall b | from <= b < to ensures Covered(rows, b) {
        if b < last.rawByteStart {
          assert Covered(front, b);
          var k :| 0 <= k < |front| && front[k].rawByteStart <= b < front[k].rawByteEnd;
          assert rows[k] == front[k];
        } else {
          assert rows[|rows| - 1].rawByteStart <= b < rows[|rows| - 1].rawByteEnd;
        }
      }
    }
  }

  /**
   * Bytes are consumed once: between a segment's admission cut and its cursor every byte lies in a
   * committed row of that segment, rows never overlap, and none reaches outside.
   */
  lemma BytesConsumedOnce(d: Digests, s0: State, steps: seq<Step>, segment: string)
    requires d.Valid() && Sound(s0) && CursorIndex(s0.cursorVector, segment) >= 0
    ensures var sys := Run(TransitionRule(d), s0, steps);
            var at := CursorIndex(s0.cursorVector, segment);
            && |Current(sys).cursorVector| == |s0.cursorVector|
            && CoveredOnce(RowsOfSegment(sys.committed, segment), s0.cursorVector[at].rawByteEnd,
                           Current(sys).cursorVector[at].rawByteEnd)
  {
    var t, sys := TransitionRule(d), Run(TransitionRule(d), s0, steps);
    TransitionRuleOk(d);
    RunKeepsInv(t, SoundState(), s0, steps);
    CommitEffects(t, SoundState(), s0, sys, "");
    SegmentsTiled(sys, |sys.committed|, segment);
    assert sys.committed[..|sys.committed|] == sys.committed;
    var at := CursorIndex(s0.cursorVector, segment);
    TilesBounds(RowsOfSegment(sys.committed, segment), s0.cursorVector[at].rawByteEnd,
                Current(sys).cursorVector[at].rawByteEnd);
  }

  // ---- Blocks, exactly once ----

  /** The block ids announced as new for one logical record, over the committed proposals in order. */
  function NewFor(q: Proposed, uuid: string): seq<string> {
    if q.row.uuid == uuid then q.proposal.newBlockIds else []
  }

  function Announced(qs: seq<Proposed>, uuid: string): seq<string> {
    if qs == [] then [] else Announced(qs[..|qs| - 1], uuid) + NewFor(qs[|qs| - 1], uuid)
  }

  lemma AnnouncedSnoc(base: seq<string>, qs: seq<Proposed>, q: Proposed, uuid: string)
    ensures base + Announced(qs + [q], uuid) == base + Announced(qs, uuid) + NewFor(q, uuid)
  {
    assert (qs + [q])[..|qs|] == qs;
  }

  lemma TakeOneMore(qs: seq<Proposed>, i: nat)
    requires i < |qs|
    ensures qs[..i + 1] == qs[..i] + [qs[i]]
  {
  }

  lemma {:induction false} AnnouncedSoFar(sys: System, n: nat, uuid: string)
    requires |sys.history| == |sys.committed| + 1 && n <= |sys.committed|
    requires forall i | 0 <= i < |sys.committed| ::
      BlocksOf(sys.history[i + 1], uuid) == BlocksOf(sys.history[i], uuid) + NewFor(sys.committed[i], uuid)
    ensures BlocksOf(sys.history[n], uuid) == BlocksOf(sys.history[0], uuid) + Announced(sys.committed[..n], uuid)
  {
    var base := BlocksOf(sys.history[0], uuid);
    if n == 0 {
      assert base + [] == base;
    } else {
      var i := n - 1;
      AnnouncedSoFar(sys, i, uuid);
      AnnouncedSnoc(base, sys.committed[..i], sys.committed[i], uuid);
      TakeOneMore(sys.committed, i);
      assert BlocksOf(sys.history[i + 1], uuid) == BlocksOf(sys.history[i], uuid) + NewFor(sys.committed[i], uuid);
    }
  }

  lemma {:induction false} AnnouncedGrows(qs: seq<Proposed>, i: nat, j: nat, uuid: string)
    requires i <= j <= |qs|
    ensures Announced(qs[..i], uuid) <= Announced(qs[..j], uuid)
    decreases j
  {
    if i < j {
      AnnouncedGrows(qs, i, j - 1, uuid);
      assert qs[..j][..j - 1] == qs[..j - 1];
    }
  }

  /**
   * Exactly-once blocks: what was announced for a record, end to end, is its block list, and in the order
   * of revisions that list only ever grows at its end.
   */
  lemma BlocksAnnouncedOnce(d: Digests, s0: State, steps: seq<Step>, uuid: string)
    requires d.Valid() && Sound(s0)
    ensures var sys := Run(TransitionRule(d), s0, steps);
            && BlocksOf(Current(sys), uuid) == BlocksOf(s0, uuid) + Announced(sys.committed, uuid)
            && forall i, j | 0 <= i <= j < |sys.history| ::
                 BlocksOf(sys.history[i], uuid) <= BlocksOf(sys.history[j], uuid)
  {
    var t, sys := TransitionRule(d), Run(TransitionRule(d), s0, steps);
    TransitionRuleOk(d);
    RunKeepsInv(t, SoundState(), s0, steps);
    CommitEffects(t, SoundState(), s0, sys, uuid);
    AnnouncedSoFar(sys, |sys.committed|, uuid);
    assert sys.committed[..|sys.committed|] == sys.committed;
    forall i, j | 0 <= i <= j < |sys.history| ensures BlocksOf(sys.history[i], uuid) <= BlocksOf(sys.history[j], uuid) {
      AnnouncedSoFar(sys, i, uuid);
      AnnouncedSoFar(sys, j, uuid);
      AnnouncedGrows(sys.committed, i, j, uuid);
    }
  }
}
