/** Turns, patches and replicas: what a projection patch does to a copy of a session's turns. */
module ProjectionTypes {
  import opened Options

  type TurnId = string

  datatype Turn = Turn(detailState: string, parts: seq<string>)
  datatype TurnUpsert = TurnUpsert(turnId: TurnId, turn: Turn)
  datatype PartOp = PartOp(turnId: TurnId, part: string)
  datatype TurnStateOp = TurnStateOp(turnId: TurnId, detailState: string)

  datatype Patch = Patch(
    baseRev: nat,
    syncRev: nat,
    execution: Option<string>,
    upsertTurns: seq<TurnUpsert>,
    partOps: seq<PartOp>,
    turnStateOps: seq<TurnStateOp>,
    removedTurnIds: seq<TurnId>)

  /** A revision patch without content: it only carries a connection along the revision chain. */
  function NoOpPatch(baseRev: nat, syncRev: nat): Patch {
    Patch(baseRev, syncRev, None, [], [], [], [])
  }

  /** A copy of a session's turns, the authoritative one or a client's. */
  type Turns = map<TurnId, Turn>

  /** What a snapshot response carries: a page of turns, or nothing when the pull failed. */
  type Response = Option<Turns>

  function PageOf(response: Response): Turns {
    if response.Some? then response.value else map[]
  }

  function ApplyUpserts(m: Turns, ops: seq<TurnUpsert>): Turns
    decreases ops
  {
    if ops == [] then m else ApplyUpserts(m[ops[0].turnId := ops[0].turn], ops[1..])
  }

  // Part and state operations name an existing turn; a copy that lacks it ignores them.
  function ApplyParts(m: Turns, ops: seq<PartOp>): Turns {
    if ops == [] then m
    else
      var id := ops[0].turnId;
      var m' := if id in m then m[id := m[id].(parts := m[id].parts + [ops[0].part])] else m;
      ApplyParts(m', ops[1..])
  }

  function ApplyStates(m: Turns, ops: seq<TurnStateOp>): Turns {
    if ops == [] then m
    else
      var id := ops[0].turnId;
      var m' := if id in m then m[id := m[id].(detailState := ops[0].detailState)] else m;
      ApplyStates(m', ops[1..])
  }

  function ApplyPatch(m: Turns, p: Patch): Turns {
    ApplyStates(ApplyParts(ApplyUpserts(m - (set id | id in p.removedTurnIds), p.upsertTurns), p.partOps),
                p.turnStateOps)
  }

  function ApplyPatches(m: Turns, ps: seq<Patch>): Turns {
    if ps == [] then m else ApplyPatch(ApplyPatches(m, ps[..|ps| - 1]), ps[|ps| - 1])
  }

  /** The ids a patch mutates: state operations, part operations and upserts, the empty id left out. */
  function PatchTurnIds(p: Patch): set<TurnId> {
    (set op | op in p.turnStateOps && op.turnId != "" :: op.turnId)
    + (set op | op in p.partOps && op.turnId != "" :: op.turnId)
    + (set op | op in p.upsertTurns && op.turnId != "" :: op.turnId)
  }

  /** Two copies agree on a turn: both lack it or both hold the same value. */
  predicate SameTurn(a: Turns, b: Turns, id: TurnId) {
    Lookup(a, id) == Lookup(b, id)
  }

  lemma {:induction false} ApplyUpsertsLocal(a: Turns, b: Turns, ops: seq<TurnUpsert>, id: TurnId)
    requires SameTurn(a, b, id)
    ensures SameTurn(ApplyUpserts(a, ops), ApplyUpserts(b, ops), id)
    decreases ops
  {
    if ops != [] {
      ApplyUpsertsLocal(a[ops[0].turnId := ops[0].turn], b[ops[0].turnId := ops[0].turn], ops[1..], id);
    }
  }

  lemma {:induction false} ApplyPartsLocal(a: Turns, b: Turns, ops: seq<PartOp>, id: TurnId)
    requires SameTurn(a, b, id)
    ensures SameTurn(ApplyParts(a, ops), ApplyParts(b, ops), id)
  {
    if ops != [] {
      var k := ops[0].turnId;
      var a' := if k in a then a[k := a[k].(parts := a[k].parts + [ops[0].part])] else a;
      var b' := if k in b then b[k := b[k].(parts := b[k].parts + [ops[0].part])] else b;
      ApplyPartsLocal(a', b', ops[1..], id);
    }
  }

  lemma {:induction false} ApplyStatesLocal(a: Turns, b: Turns, ops: seq<TurnStateOp>, id: TurnId)
    requires SameTurn(a, b, id)
    ensures SameTurn(ApplyStates(a, ops), ApplyStates(b, ops), id)
  {
    if ops != [] {
      var k := ops[0].turnId;
      var a' := if k in a then a[k := a[k].(detailState := ops[0].detailState)] else a;
      var b' := if k in b then b[k := b[k].(detailState := ops[0].detailState)] else b;
      ApplyStatesLocal(a', b', ops[1..], id);
    }
  }

  /** A patch acts turn by turn: what it makes of one turn depends on that turn alone. */
  lemma ApplyPatchLocal(a: Turns, b: Turns, p: Patch, id: TurnId)
    requires SameTurn(a, b, id)
    ensures SameTurn(ApplyPatch(a, p), ApplyPatch(b, p), id)
  {
    var removed := set k | k in p.removedTurnIds;
    ApplyUpsertsLocal(a - removed, b - removed, p.upsertTurns, id);
    var a1, b1 := ApplyUpserts(a - removed, p.upsertTurns), ApplyUpserts(b - removed, p.upsertTurns);
    ApplyPartsLocal(a1, b1, p.partOps, id);
    ApplyStatesLocal(ApplyParts(a1, p.partOps), ApplyParts(b1, p.partOps), p.turnStateOps, id);
  }

  lemma {:induction false} ApplyPatchesLocal(a: Turns, b: Turns, ps: seq<Patch>, id: TurnId)
    requires SameTurn(a, b, id)
    ensures SameTurn(ApplyPatches(a, ps), ApplyPatches(b, ps), id)
  {
    if ps != [] {
      ApplyPatchesLocal(a, b, ps[..|ps| - 1], id);
      ApplyPatchLocal(ApplyPatches(a, ps[..|ps| - 1]), ApplyPatches(b, ps[..|ps| - 1]), ps[|ps| - 1], id);
    }
  }

  lemma {:induction false} ApplyUpsertsUntouched(m: Turns, ops: seq<TurnUpsert>, id: TurnId)
    requires forall op | op in ops :: op.turnId != id
    ensures SameTurn(ApplyUpserts(m, ops), m, id)
    decreases ops
  {
    if ops != [] {
      ApplyUpsertsUntouched(m[ops[0].turnId := ops[0].turn], ops[1..], id);
    }
  }

  lemma {:induction false} ApplyPartsUntouched(m: Turns, ops: seq<PartOp>, id: TurnId)
    requires forall op | op in ops :: op.turnId != id
    ensures SameTurn(ApplyParts(m, ops), m, id)
  {
    if ops != [] {
      var k := ops[0].turnId;
      ApplyPartsUntouched(if k in m then m[k := m[k].(parts := m[k].parts + [ops[0].part])] else m, ops[1..], id);
    }
  }

  lemma {:induction false} ApplyStatesUntouched(m: Turns, ops: seq<TurnStateOp>, id: TurnId)
    requires forall op | op in ops :: op.turnId != id
    ensures SameTurn(ApplyStates(m, ops), m, id)
  {
    if ops != [] {
      var k := ops[0].turnId;
      ApplyStatesUntouched(if k in m then m[k := m[k].(detailState := ops[0].detailState)] else m, ops[1..], id);
    }
  }

  /** A turn outside a patch's turn ids, and not removed by it, keeps its value. */
  lemma ApplyPatchUntouched(m: Turns, p: Patch, id: TurnId)
    requires id != "" && id !in PatchTurnIds(p) && id !in p.removedTurnIds
    ensures SameTurn(ApplyPatch(m, p), m, id)
  {
    assert forall op | op in p.upsertTurns :: op.turnId != "" ==> op.turnId in PatchTurnIds(p);
    assert forall op | op in p.partOps :: op.turnId != "" ==> op.turnId in PatchTurnIds(p);
    assert forall op | op in p.turnStateOps :: op.turnId != "" ==> op.turnId in PatchTurnIds(p);
    var m0 := m - (set k | k in p.removedTurnIds);
    var m1 := ApplyUpserts(m0, p.upsertTurns);
    var m2 := ApplyParts(m1, p.partOps);
    ApplyUpsertsUntouched(m0, p.upsertTurns, id);
    ApplyPartsUntouched(m1, p.partOps, id);
    ApplyStatesUntouched(m2, p.turnStateOps, id);
  }

  lemma {:induction false} ApplyPatchesAppend(m: Turns, ps: seq<Patch>, qs: seq<Patch>)
    ensures ApplyPatches(m, ps + qs) == ApplyPatches(ApplyPatches(m, ps), qs)
  {
    if qs == [] {
      assert ps + qs == ps;
    } else {
      assert (ps + qs)[..|ps + qs| - 1] == ps + qs[..|qs| - 1];
      ApplyPatchesAppend(m, ps, qs[..|qs| - 1]);
    }
  }
}
