/** The session manager as objects updated in place, each operation tied to its function on the stored value. */
module SessionManager {
  import opened Options
  import opened Sequences
  import opened SessionIds
  import opened SessionStore
  import Stored = SessionStore

  /** The version from which a snapshot carries its legacy flag. */
  const SNAPSHOT_VERSION: int := 1

  class Session {
    const id: string
    var name: string
    var agentSessionId: string
    var agentType: string
    var past: seq<string>

    function IdsOf(): Ids
      reads this
    {
      Ids(agentSessionId, agentType, past)
    }

    function View(): Stored.Session
      reads this
    {
      Stored.Session(id, name, IdsOf())
    }

    constructor (id: string, name: string)
      ensures this.id == id && View() == Stored.Session(id, name, NO_IDS)
    {
      this.id, this.name := id, name;
      agentSessionId, agentType, past := "", "", [];
    }

    /** Lists the current id among the past ones unless it is there, or is not a real id. */
    method RecordPastAgentSessionID()
      modifies this`past
      ensures past == RecordPast(old(IdsOf()))
    {
      if agentSessionId == "" || agentSessionId == CONTINUE_SESSION {
        return;
      }
      for i := 0 to |past|
        invariant agentSessionId !in past[..i] && past == old(past)
      {
        if past[i] == agentSessionId {
          return;
        }
      }
      assert past[..|past|] == past;
      past := past + [agentSessionId];
    }

    method SetAgentInfo(agentSessionId: string, agentType: string, name: string)
      modifies this
      ensures View() == WithIds(old(View()), IdOp.SetAgentInfo(agentSessionId, agentType), name)
    {
      var id := agentSessionId;
      if id == CONTINUE_SESSION {
        id := "";
      }
      if this.agentSessionId != id {
        RecordPastAgentSessionID();
      }
      this.agentSessionId, this.agentType, this.name := id, agentType, name;
    }

    method SetAgentSessionID(id: string, agentType: string)
      modifies this
      ensures View() == WithIds(old(View()), IdOp.SetAgentSessionID(id, agentType), "")
    {
      if id == CONTINUE_SESSION {
        return;
      }
      if agentSessionId != id {
        RecordPastAgentSessionID();
      }
      agentSessionId, this.agentType := id, agentType;
    }

    method CompareAndSetAgentSessionID(id: string, agentType: string) returns (stored: bool)
      modifies this
      ensures View() == WithIds(old(View()), CompareAndSet(id, agentType), "")
      ensures stored <==> Assigned(old(IdsOf()), CompareAndSet(id, agentType)) == {id}
    {
      if id == "" || id == CONTINUE_SESSION {
        return false;
      }
      if agentSessionId != "" && agentSessionId != CONTINUE_SESSION {
        return false;
      }
      agentSessionId, this.agentType := id, agentType;
      stored := true;
    }

    method StripContinueSessionSentinel()
      modifies this
      ensures View() == WithIds(old(View()), StripSentinel, "")
    {
      if agentSessionId == CONTINUE_SESSION {
        agentSessionId := "";
      }
    }

    method Invalidate(agentType: string)
      modifies this
      ensures View() == WithIds(old(View()), InvalidateFor(agentType), "")
    {
      if agentSessionId != "" && this.agentType != "" && this.agentType != agentType {
        RecordPastAgentSessionID();
        agentSessionId, this.agentType := "", agentType;
      }
    }
  }

  class Manager {
    var sessions: map<string, Session>
    var active: map<string, string>
    var users: map<string, seq<string>>
    var counter: nat
    /** Whether ids may have been lost before past ids were kept; agents' lists are then not filtered. */
    var legacyData: bool

    ghost function SessionViews(): map<string, Stored.Session>
      reads this`sessions, sessions.Values
    {
      map id | id in sessions :: sessions[id].View()
    }

    ghost function View(): Store
      reads this`sessions, this`active, this`users, this`counter, sessions.Values
    {
      Store(SessionViews(), active, users, counter)
    }

    /** Each session is stored under its own id, so no object is stored twice. */
    ghost predicate Keyed()
      reads this`sessions
    {
      forall id | id in sessions :: sessions[id].id == id
    }

    constructor ()
      ensures Keyed() && View() == EMPTY && !legacyData
    {
      sessions, active, users, counter, legacyData := map[], map[], map[], 0, false;
    }

    method NextID() returns (id: string)
      modifies `counter
      ensures counter == old(counter) + 1 && id == SessionId(counter)
    {
      counter := counter + 1;
      id := SessionId(counter);
    }

    /** Stores a new session under the next id; it is on nobody's list yet. */
    method Register(name: string) returns (s: Session)
      requires Keyed()
      modifies `sessions, `counter
      ensures Keyed() && fresh(s) && s.id == SessionId(counter) && s.View() == Stored.Session(s.id, name, NO_IDS)
      ensures counter == old(counter) + 1 && sessions == old(sessions)[s.id := s]
      ensures SessionViews() == old(SessionViews())[s.id := s.View()]
    {
      var id := NextID();
      s := new Session(id, name);
      sessions := sessions[id := s];
    }

    method CreateLocked(user: string, name: string) returns (s: Session)
      requires Keyed()
      modifies `sessions, `active, `users, `counter
      ensures Keyed() && fresh(s) && s.id == SessionId(counter) && sessions == old(sessions)[s.id := s]
      ensures s.View() == Stored.Session(s.id, name, NO_IDS)
      ensures View() == Create(old(View()), user, name, NO_IDS, true)
    {
      s := Register(name);
      active := active[user := s.id];
      users := users[user := GetOr(users, user, []) + [s.id]];
    }

    method GetOrCreateActive(user: string) returns (s: Session)
      requires Keyed()
      modifies `sessions, `active, `users, `counter
      ensures Keyed() && View() == Next(old(View()), Step.GetOrCreateActive(user))
      ensures user in active && active[user] in sessions && sessions[active[user]] == s
    {
      if user in active && active[user] in sessions {
        return sessions[active[user]];
      }
      s := CreateLocked(user, "default");
    }

    method NewSession(user: string, name: string) returns (s: Session)
      requires Keyed()
      modifies `sessions, `active, `users, `counter
      ensures Keyed() && View() == Next(old(View()), Step.NewSession(user, name))
    {
      s := CreateLocked(user, name);
    }

    method NewSideSession(user: string, name: string) returns (s: Session)
      requires Keyed()
      modifies `sessions, `active, `users, `counter
      ensures Keyed() && fresh(s) && View() == Next(old(View()), Step.NewSideSession(user, name))
    {
      s := Register(name);
      users := users[user := GetOr(users, user, []) + [s.id]];
    }

    method FindByTarget(list: seq<string>, target: string) returns (found: Option<string>)
      requires Keyed()
      ensures found == FirstWith(list, ByTarget(View(), target))
    {
      ghost var pass := ByTarget(View(), target);
      for i := 0 to |list|
        invariant FirstWith(list, pass) == FirstWith(list[i..], pass)
      {
        assert pass(list[i]) <==>
               list[i] in sessions && (sessions[list[i]].id == target || sessions[list[i]].name == target);
        if list[i] in sessions && (sessions[list[i]].id == target || sessions[list[i]].name == target) {
          return Some(list[i]);
        }
      }
      found := None;
    }

    method FindByAgentSession(list: seq<string>, agentSessionId: string) returns (found: Option<string>)
      requires Keyed()
      ensures found == FirstWith(list, ByAgentSession(View(), agentSessionId))
    {
      ghost var pass := ByAgentSession(View(), agentSessionId);
      for i := 0 to |list|
        invariant FirstWith(list, pass) == FirstWith(list[i..], pass)
      {
        assert pass(list[i]) <==> list[i] in sessions && sessions[list[i]].agentSessionId == agentSessionId;
        if list[i] in sessions && sessions[list[i]].agentSessionId == agentSessionId {
          return Some(list[i]);
        }
      }
      found := None;
    }

    /** The first session of the user's list with that id or name becomes the active one. */
    method SwitchSession(user: string, target: string) returns (found: Option<Session>)
      requires Keyed()
      modifies `active
      ensures View() == Next(old(View()), Step.SwitchSession(user, target))
      ensures found.Some? <==> exists id :: id in ListOf(old(View()), user) && ByTarget(old(View()), target)(id)
      ensures found.Some? ==> user in active && Lookup(sessions, active[user]) == found
    {
      var id := FindByTarget(GetOr(users, user, []), target);
      if id.None? {
        return None;
      }
      Activate(user, id.value);
      found := Some(sessions[id.value]);
    }

    method Activate(user: string, id: string)
      modifies `active
      ensures View() == old(View()).(active := old(active)[user := id]) && active == old(active)[user := id]
    {
      active := active[user := id];
    }

    /** The first of the user's sessions mapped to the agent session becomes active, or a new one is made for it. */
    method SwitchToAgentSession(user: string, agentSessionId: string, agentName: string, summary: string)
      returns (s: Session)
      requires Keyed()
      modifies `sessions, `active, `users, `counter
      ensures Keyed() && View() == SwitchToAgent(old(View()), user, agentSessionId, agentName, summary)
      ensures user in active && active[user] in sessions && sessions[active[user]] == s
    {
      var id := FindByAgentSession(GetOr(users, user, []), agentSessionId);
      if id.Some? {
        Activate(user, id.value);
        return sessions[id.value];
      }
      s := CreateFor(user, agentSessionId, agentName, summary);
    }

    method CreateFor(user: string, agentSessionId: string, agentName: string, summary: string) returns (s: Session)
      requires Keyed()
      modifies `sessions, `active, `users, `counter
      ensures Keyed() && user in active && active[user] in sessions && sessions[active[user]] == s
      ensures View() ==
              Create(old(View()), user, summary, ApplyIds(NO_IDS, SetAgentInfo(agentSessionId, agentName)), true)
    {
      ghost var st := View();
      s := CreateLocked(user, summary);
      ghost var created := View();
      SetInfoOf(s, agentSessionId, agentName, summary);
      CreateWithIds(st, created, View(), user, summary, ApplyIds(NO_IDS, IdOp.SetAgentInfo(agentSessionId, agentName)));
    }

    method SetInfoOf(s: Session, agentSessionId: string, agentName: string, name: string)
      requires Keyed() && s.id in sessions && sessions[s.id] == s
      modifies s
      ensures View() ==
              var after := WithIds(old(s.View()), IdOp.SetAgentInfo(agentSessionId, agentName), name);
              old(View()).(sessions := old(SessionViews())[s.id := after])
    {
      assert forall k | k in sessions && k != s.id :: sessions[k] != s;
      s.SetAgentInfo(agentSessionId, agentName, name);
    }

    /** Takes the id off every user's list, and off the active sessions. */
    static method DropFromLists(users: map<string, seq<string>>, active: map<string, string>, id: string)
      returns (lists: map<string, seq<string>>, still: map<string, string>)
      requires ListsDistinct(users, active)
      ensures lists == ListsWithout(users, {id}) && still == ActiveWithout(active, {id})
    {
      lists, still := users, active;
      var rest := users.Keys;
      while rest != {}
        invariant rest <= users.Keys
        invariant lists == ListsAfter(users, users.Keys - rest, id)
        invariant still == ActiveAfter(active, users.Keys - rest, id)
        decreases rest
      {
        var user :| user in rest;
        DropOne(users, active, users.Keys - rest, user, id);
        var list := CutFirst(lists[user], id);
        lists := lists[user := list];
        if user in still && still[user] == id {
          still := still - {user};
        }
        assert users.Keys - (rest - {user}) == users.Keys - rest + {user};
        rest := rest - {user};
      }
    }

    method DeleteByIDLocked(id: string)
      requires Keyed() && ListsDistinct(users, active)
      modifies `sessions, `active, `users, `counter
      ensures Keyed() && sessions == old(sessions) - {id}
      ensures View() == Delete(old(View()), {id})
    {
      ghost var st := View();
      sessions := sessions - {id};
      users, active := DropFromLists(users, active, id);
      assert View().sessions == st.sessions - {id};
    }

    static method CutFirst(list: seq<string>, id: string) returns (r: seq<string>)
      requires NoRepeats(list)
      ensures r == Without(list, {id})
    {
      for i := 0 to |list|
        invariant forall k | 0 <= k < i :: list[k] != id
      {
        if list[i] == id {
          CutIsWithout(list, i);
          return list[..i] + list[i + 1..];
        }
      }
      WithoutAbsent(list, {id});
      r := list;
    }

    method DeleteByID(id: string) returns (deleted: bool)
      requires Keyed() && Valid(View())
      modifies `sessions, `active, `users, `counter
      ensures Keyed() && View() == if id in old(sessions) then Delete(old(View()), {id}) else old(View())
      ensures deleted <==> id in old(sessions)
    {
      if id !in sessions {
        return false;
      }
      ListsAreDistinct(View());
      DeleteByIDLocked(id);
      deleted := true;
    }

    /** Deletes the session if it is mapped to the agent session. */
    method DeleteIfMapped(id: string, agentSessionId: string) returns (deleted: bool)
      requires Keyed() && id in sessions && ListsDistinct(users, active)
      modifies `sessions, `active, `users, `counter
      ensures Keyed() && ListsDistinct(users, active)
              && sessions == if deleted then old(sessions) - {id} else old(sessions)
      ensures View() == Delete(old(View()), if deleted then {id} else {})
      ensures deleted <==> id in MappedTo(old(View()), agentSessionId)
    {
      DeleteNothing(View());
      deleted := sessions[id].agentSessionId == agentSessionId;
      if deleted {
        DeleteKeepsDistinct(View(), {id});
        DeleteByIDLocked(id);
      }
    }

    /** Visits the sessions in any order and deletes those mapped to the agent session. */
    method DeleteAllMapped(agentSessionId: string) returns (removed: nat)
      requires Keyed() && ListsDistinct(users, active)
      modifies `sessions, `active, `users, `counter
      ensures View() == Delete(old(View()), MappedTo(old(View()), agentSessionId)) && Keyed()
      ensures removed == |MappedTo(old(View()), agentSessionId)|
    {
      ghost var st, gone := View(), {};
      removed := 0;
      var rest := sessions.Keys;
      VisitStarts(st, agentSessionId);
      while rest != {}
        invariant Keyed() && ListsDistinct(users, active) && rest <= sessions.Keys
        invariant View() == Delete(st, gone) && Visited(st, agentSessionId, rest, gone) && removed == |gone|
        decreases rest
      {
        var id :| id in rest;
        gone := VisitOne(st, agentSessionId, rest, gone, id);
        var deleted := DeleteIfMapped(id, agentSessionId);
        rest := rest - {id};
        removed := removed + if deleted then 1 else 0;
      }
    }

    method DeleteByAgentSessionID(agentSessionId: string) returns (removed: nat)
      requires Keyed() && Valid(View())
      modifies `sessions, `active, `users, `counter
      ensures Keyed() && View() == DeleteMapped(old(View()), agentSessionId)
      ensures removed == if agentSessionId == "" then 0 else |MappedTo(old(View()), agentSessionId)|
    {
      if agentSessionId == "" {
        return 0;
      }
      ListsAreDistinct(View());
      removed := DeleteAllMapped(agentSessionId);
    }

    method InvalidateForAgent(agentType: string)
      requires Keyed()
      modifies sessions.Values
      ensures View() == Next(old(View()), Step.InvalidateForAgent(agentType))
    {
      var rest := sessions.Keys;
      while rest != {}
        invariant rest <= sessions.Keys
        invariant forall id | id in sessions ::
          sessions[id].View() ==
            if id in rest then old(sessions[id].View())
            else WithIds(old(sessions[id].View()), InvalidateFor(agentType), "")
        decreases rest
      {
        var id :| id in rest;
        rest := rest - {id};
        sessions[id].Invalidate(agentType);
      }
    }

    /** Calling an operation on one stored session is a step of the store. */
    twostate lemma SessionCallIsStep(id: string, op: IdOp, name: string)
      requires old(Keyed()) && id in sessions && sessions == old(sessions)
      requires active == old(active) && users == old(users) && counter == old(counter)
      requires sessions[id].View() == WithIds(old(sessions[id].View()), op, name)
      requires forall k | k in sessions && k != id :: sessions[k].View() == old(sessions[k].View())
      ensures View() == Next(old(View()), OnSession(id, op, name))
    {
    }

    /** Some live session has neither a current nor a past id. */
    ghost predicate SomeUntracked()
      reads this`sessions, sessions.Values
    {
      exists id :: id in sessions && Untracked(sessions[id].IdsOf())
    }

    method AnyUntracked() returns (any: bool)
      ensures any <==> SomeUntracked()
    {
      var rest := sessions.Keys;
      while rest != {}
        invariant rest <= sessions.Keys
        invariant forall id | id in sessions && id !in rest :: !Untracked(sessions[id].IdsOf())
        decreases rest
      {
        var id :| id in rest;
        if sessions[id].agentSessionId == "" && sessions[id].past == [] {
          assert Untracked(sessions[id].IdsOf());
          return true;
        }
        rest := rest - {id};
      }
      any := false;
    }

    /** What a load makes of the stored flags: older data counts as legacy when a session's ids are lost. */
    method LoadLegacyData(version: int, persisted: bool, pastIdTracking: bool)
      modifies `legacyData
      ensures legacyData <==> if version >= SNAPSHOT_VERSION then persisted else !pastIdTracking || SomeUntracked()
    {
      if version >= SNAPSHOT_VERSION {
        legacyData := persisted;
      } else {
        var lost := true;
        if pastIdTracking {
          lost := AnyUntracked();
        }
        legacyData := lost;
      }
    }

    /** What a save does to the manager: it strips sentinels, and ends legacy mode once every session is tracked. */
    method StripAndMigrate()
      requires Keyed()
      modifies `legacyData, sessions.Values
      ensures SessionViews() == map id | id in sessions :: WithIds(old(SessionViews())[id], StripSentinel, "")
      ensures legacyData <==> old(legacyData) && SomeUntracked()
      ensures old(legacyData) && !legacyData ==> forall id | id in sessions :: Tracked(sessions[id].IdsOf()) != {}
    {
      StripAll();
      if legacyData {
        legacyData := AnyUntracked();
      }
      forall id | id in sessions ensures Untracked(sessions[id].IdsOf()) <==> Tracked(sessions[id].IdsOf()) == {} {
        UntrackedIff(sessions[id].IdsOf());
      }
    }

    method StripAll()
      requires Keyed()
      modifies sessions.Values
      ensures SessionViews() == map id | id in sessions :: WithIds(old(SessionViews())[id], StripSentinel, "")
    {
      var rest := sessions.Keys;
      while rest != {}
        invariant rest <= sessions.Keys
        invariant forall id | id in sessions ::
          sessions[id].View() ==
            if id in rest then old(sessions[id].View()) else WithIds(old(sessions[id].View()), StripSentinel, "")
        decreases rest
      {
        var id :| id in rest;
        rest := rest - {id};
        sessions[id].StripContinueSessionSentinel();
      }
    }

    /**
     * The ids agents' session lists are filtered by: every id, current or past, of every live session; none to
     * filter by while ids may have been lost.
     */
    method KnownAgentSessionIDs() returns (known: Option<set<string>>)
      ensures known.None? <==> legacyData
      ensures known.Some? ==> forall x :: x in known.value <==> Owned(View(), x)
    {
      if legacyData {
        return None;
      }
      var ids := {};
      var rest := sessions.Keys;
      while rest != {}
        invariant rest <= sessions.Keys
        invariant forall x :: x in ids <==> exists k :: k in sessions && k !in rest && x in Tracked(sessions[k].IdsOf())
        decreases rest
      {
        var id :| id in rest;
        var s := sessions[id];
        var tracked := set x | x in s.past;
        if s.agentSessionId != "" {
          tracked := tracked + {s.agentSessionId};
        }
        assert tracked == Tracked(s.IdsOf());
        ids := ids + tracked;
        rest := rest - {id};
      }
      ghost var st := View();
      assert forall k | k in sessions :: k in st.sessions && st.sessions[k].ids == sessions[k].IdsOf();
      known := Some(ids);
    }
  }
}
