/** The agent session ids of one session: the current one and the ones it replaced. */
module SessionIds {

  const CONTINUE_SESSION: string := "__continue__"

  datatype Ids = Ids(agentSessionId: string, agentType: string, past: seq<string>)

  const NO_IDS := Ids("", "", [])

  /** A real id: neither empty nor the sentinel that asks an agent to continue. */
  predicate Real(id: string) {
    id != "" && id != CONTINUE_SESSION
  }

  /** The past ids once the current one is about to be replaced or cleared. */
  function RecordPast(ids: Ids): seq<string> {
    if !Real(ids.agentSessionId) || ids.agentSessionId in ids.past then ids.past
    else ids.past + [ids.agentSessionId]
  }

  datatype IdOp =
    | SetAgentInfo(agentSessionId: string, agentType: string)
    | SetAgentSessionID(agentSessionId: string, agentType: string)
    | CompareAndSet(agentSessionId: string, agentType: string)
    | InvalidateFor(agentType: string)
    | StripSentinel

  function Replace(ids: Ids, id: string, agentType: string): Ids {
    Ids(id, agentType, if ids.agentSessionId != id then RecordPast(ids) else ids.past)
  }

  /** Whether a compare-and-set stores its id: only over an empty id or the sentinel. */
  predicate Vacant(ids: Ids, id: string) {
    Real(id) && !Real(ids.agentSessionId)
  }

  predicate Stale(ids: Ids, agentType: string) {
    ids.agentSessionId != "" && ids.agentType != "" && ids.agentType != agentType
  }

  function ApplyIds(ids: Ids, op: IdOp): Ids {
    match op
    case SetAgentInfo(id, t) => Replace(ids, if id == CONTINUE_SESSION then "" else id, t)
    case SetAgentSessionID(id, t) => if id == CONTINUE_SESSION then ids else Replace(ids, id, t)
    case CompareAndSet(id, t) => if Vacant(ids, id) then ids.(agentSessionId := id, agentType := t) else ids
    case InvalidateFor(t) => if Stale(ids, t) then Ids("", t, RecordPast(ids)) else ids
    case StripSentinel => if ids.agentSessionId == CONTINUE_SESSION then ids.(agentSessionId := "") else ids
  }

  /** The real ids an operation sets on the session. */
  function Assigned(ids: Ids, op: IdOp): set<string> {
    match op
    case SetAgentInfo(id, _) => if Real(id) then {id} else {}
    case SetAgentSessionID(id, _) => if Real(id) then {id} else {}
    case CompareAndSet(id, _) => if Vacant(ids, id) then {id} else {}
    case InvalidateFor(_) => {}
    case StripSentinel => {}
  }

  /** The real ids a session is known by, current or past. */
  function Known(ids: Ids): set<string> {
    (set id | id in ids.past) + if Real(ids.agentSessionId) then {ids.agentSessionId} else {}
  }

  /** The ids agents' session lists are filtered by: it takes the current id as it is. */
  function Tracked(ids: Ids): set<string> {
    (set id | id in ids.past) + if ids.agentSessionId != "" then {ids.agentSessionId} else {}
  }

  /** A session no agent session can be told to belong to. */
  predicate Untracked(ids: Ids) {
    ids.agentSessionId == "" && ids.past == []
  }

  lemma UntrackedIff(ids: Ids)
    ensures Untracked(ids) <==> Tracked(ids) == {}
  {
    if ids.past != [] { assert ids.past[0] in Tracked(ids); }
  }

  /** Past ids are real and listed once, and the sentinel is not stored. */
  predicate ValidIds(ids: Ids) {
    && ids.agentSessionId != CONTINUE_SESSION
    && (forall i | 0 <= i < |ids.past| :: Real(ids.past[i]))
    && (forall i, j | 0 <= i < j < |ids.past| :: ids.past[i] != ids.past[j])
  }

  /** No operation forgets an id, and none invents one. */
  lemma KnownGrowsByAssigned(ids: Ids, op: IdOp)
    ensures Known(ApplyIds(ids, op)) == Known(ids) + Assigned(ids, op)
    ensures ValidIds(ids) ==> ValidIds(ApplyIds(ids, op))
  {
    RecordPastKeeps(ids);
  }

  lemma RecordPastKeeps(ids: Ids)
    ensures (set id | id in RecordPast(ids)) == Known(ids)
    ensures ValidIds(ids) ==> ValidIds(Ids("", "", RecordPast(ids)))
  {
    assert forall id :: id in ids.past + [ids.agentSessionId] <==> id in ids.past || id == ids.agentSessionId;
  }
}
