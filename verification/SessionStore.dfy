/**
 * What the session manager keeps, as a value: sessions by id, each user's list and active session, and the
 * counter that names new sessions. One function an operation; the class that updates it in place follows it.
 */
module SessionStore {
  import opened Options
  import opened Sequences
  import opened SessionIds
  import opened Text

  datatype Session = Session(id: string, name: string, ids: Ids)

  datatype Store = Store(
    sessions: map<string, Session>,
    active: map<string, string>,
    users: map<string, seq<string>>,
    counter: nat)

  const EMPTY := Store(map[], map[], map[], 0)

  function SessionId(n: nat): string {
    "s" + Decimal(n)
  }

  lemma SessionIdInjective(m: nat, n: nat)
    requires SessionId(m) == SessionId(n)
    ensures m == n
  {
    assert SessionId(m)[1..] == Decimal(m) && SessionId(n)[1..] == Decimal(n);
    DecimalInjective(m, n);
  }

  function ListOf(st: Store, user: string): seq<string> {
    GetOr(st.users, user, [])
  }

  function Create(st: Store, user: string, name: string, ids: Ids, activate: bool): Store {
    var id := SessionId(st.counter + 1);
    Store(st.sessions[id := Session(id, name, ids)],
          if activate then st.active[user := id] else st.active,
          st.users[user := ListOf(st, user) + [id]],
          st.counter + 1)
  }

  /** Creating a session and then setting its ids is creating it with them. */
  lemma CreateWithIds(st: Store, bare: Store, after: Store, user: string, name: string, ids: Ids)
    requires bare == Create(st, user, name, NO_IDS, true)
    requires var id := SessionId(st.counter + 1);
             after == bare.(sessions := bare.sessions[id := Session(id, name, ids)])
    ensures after == Create(st, user, name, ids, true)
  {
  }

  /** The first of the listed ids that passes. */
  function FirstWith(list: seq<string>, pass: string -> bool): (r: Option<string>)
    ensures r.Some? ==> r.value in list && pass(r.value)
    ensures r.None? ==> forall id | id in list :: !pass(id)
  {
    if list == [] then None else if pass(list[0]) then Some(list[0]) else FirstWith(list[1..], pass)
  }

  function ByTarget(st: Store, target: string): string -> bool {
    id => id in st.sessions && (st.sessions[id].id == target || st.sessions[id].name == target)
  }

  function ByAgentSession(st: Store, agentSessionId: string): string -> bool {
    id => id in st.sessions && st.sessions[id].ids.agentSessionId == agentSessionId
  }

  function Without(list: seq<string>, dead: set<string>): (r: seq<string>)
    ensures forall id :: id in r <==> id in list && id !in dead
  {
    if list == [] then []
    else
      var rest := Without(list[1..], dead);
      if list[0] in dead then rest else [list[0]] + rest
  }

  function ActiveWithout(active: map<string, string>, dead: set<string>): map<string, string> {
    map u | u in active && active[u] !in dead :: active[u]
  }

  function ListsWithout(users: map<string, seq<string>>, dead: set<string>): map<string, seq<string>> {
    map u | u in users :: Without(users[u], dead)
  }

  function Delete(st: Store, dead: set<string>): Store {
    Store(st.sessions - dead, ActiveWithout(st.active, dead), ListsWithout(st.users, dead), st.counter)
  }

  function WithIds(s: Session, op: IdOp, name: string): Session {
    s.(ids := ApplyIds(s.ids, op), name := if op.SetAgentInfo? then name else s.name)
  }

  datatype Step =
    | GetOrCreateActive(user: string)
    | NewSession(user: string, name: string)
    | NewSideSession(user: string, name: string)
    | SwitchSession(user: string, target: string)
    | SwitchToAgentSession(user: string, agentSessionId: string, agentName: string, summary: string)
    | DeleteByID(id: string)
    | DeleteByAgentSessionID(agentSessionId: string)
    | InvalidateForAgent(agentType: string)
    | OnSession(id: string, op: IdOp, name: string)

  predicate HasActive(st: Store, user: string) {
    user in st.active && st.active[user] in st.sessions
  }

  function MappedTo(st: Store, agentSessionId: string): set<string> {
    set id | id in st.sessions && st.sessions[id].ids.agentSessionId == agentSessionId
  }

  function SwitchToAgent(st: Store, user: string, aid: string, agent: string, summary: string): Store {
    var found := FirstWith(ListOf(st, user), ByAgentSession(st, aid));
    if found.Some? then st.(active := st.active[user := found.value])
    else Create(st, user, summary, ApplyIds(NO_IDS, SetAgentInfo(aid, agent)), true)
  }

  function DeleteMapped(st: Store, aid: string): Store {
    if aid == "" then st else Delete(st, MappedTo(st, aid))
  }

  function Next(st: Store, step: Step): Store {
    match step
    case GetOrCreateActive(user) => if HasActive(st, user) then st else Create(st, user, "default", NO_IDS, true)
    case NewSession(user, name) => Create(st, user, name, NO_IDS, true)
    case NewSideSession(user, name) => Create(st, user, name, NO_IDS, false)
    case SwitchSession(user, target) =>
      var found := FirstWith(ListOf(st, user), ByTarget(st, target));
      if found.Some? then st.(active := st.active[user := found.value]) else st
    case SwitchToAgentSession(user, aid, agent, summary) =>
      SwitchToAgent(st, user, aid, agent, summary)
    case DeleteByID(id) => if id in st.sessions then Delete(st, {id}) else st
    case DeleteByAgentSessionID(aid) => DeleteMapped(st, aid)
    case InvalidateForAgent(t) =>
      st.(sessions := map id | id in st.sessions :: WithIds(st.sessions[id], InvalidateFor(t), ""))
    case OnSession(id, op, name) =>
      if id in st.sessions then st.(sessions := st.sessions[id := WithIds(st.sessions[id], op, name)]) else st
  }

  function Run(steps: seq<Step>): Store {
    if steps == [] then EMPTY else Next(Run(steps[..|steps| - 1]), steps[|steps| - 1])
  }

  function RunFrom(st: Store, steps: seq<Step>): Store
    decreases |steps|
  {
    if steps == [] then st else RunFrom(Next(st, steps[0]), steps[1..])
  }

  // ---- What a call comes to ----

  lemma {:induction false} FirstIsFound(list: seq<string>, pass: string -> bool) returns (i: nat)
    ensures i <= |list| && forall j | 0 <= j < i :: !pass(list[j])
    ensures if i == |list| then FirstWith(list, pass).None? else pass(list[i]) && FirstWith(list, pass) == Some(list[i])
  {
    if list == [] || pass(list[0]) {
      i := 0;
    } else {
      i := FirstIsFound(list[1..], pass);
      i := i + 1;
    }
  }

  /** Switching makes the first live session of the user's list with that id or name the active one, or does nothing. */
  lemma SwitchTakesFirst(st: Store, user: string, target: string) returns (i: nat)
    ensures var list, after := ListOf(st, user), Next(st, SwitchSession(user, target));
            && i <= |list|
            && (forall j | 0 <= j < i && list[j] in st.sessions ::
                  st.sessions[list[j]].id != target && st.sessions[list[j]].name != target)
            && if i == |list| then after == st
               else
                 && list[i] in st.sessions
                 && (st.sessions[list[i]].id == target || st.sessions[list[i]].name == target)
                 && after == st.(active := st.active[user := list[i]])
  {
    i := FirstIsFound(ListOf(st, user), ByTarget(st, target));
  }

  /** A new session has the next id, its name and no agent, stands last in its user's list, and is active or not. */
  lemma CreationMeans(st: Store, user: string, name: string)
    ensures var id := "s" + Decimal(st.counter + 1);
            var after, aside := Next(st, NewSession(user, name)), Next(st, NewSideSession(user, name));
            && after == aside.(active := st.active[user := id]) && aside.active == st.active
            && after.sessions == st.sessions[id := Session(id, name, Ids("", "", []))]
            && after.users == st.users[user := GetOr(st.users, user, []) + [id]] && after.counter == st.counter + 1
            && Next(st, GetOrCreateActive(user)) ==
               if user in st.active && st.active[user] in st.sessions then st
               else Next(st, NewSession(user, "default"))
  {
  }

  lemma DroppingFirst(x: string, list: seq<string>, dead: set<string>)
    ensures Without([x] + list, dead) == (if x in dead then [] else [x]) + Without(list, dead)
  {
    assert ([x] + list)[1..] == list;
    assert [] + Without(list, dead) == Without(list, dead);
  }

  lemma DroppingFirstJoined(x: string, rest: seq<string>, b: seq<string>, dead: set<string>)
    requires Without(rest + b, dead) == Without(rest, dead) + Without(b, dead)
    ensures Without([x] + (rest + b), dead) == Without([x] + rest, dead) + Without(b, dead)
  {
    DroppingFirst(x, rest, dead);
    DroppingFirst(x, rest + b, dead);
    Reassociate(if x in dead then [] else [x], Without(rest, dead), Without(b, dead));
  }

  /** What is left of a list stays in its order: dropping acts on each part alone. */
  lemma {:induction false} DroppingKeepsOrder(a: seq<string>, b: seq<string>, dead: set<string>)
    ensures Without(a + b, dead) == Without(a, dead) + Without(b, dead)
  {
    if a == [] {
      assert a + b == b && [] + Without(b, dead) == Without(b, dead);
    } else {
      DroppingKeepsOrder(a[1..], b, dead);
      DroppingFirstJoined(a[0], a[1..], b, dead);
      Reassociate([a[0]], a[1..], b);
      assert a == [a[0]] + a[1..];
    }
  }

  /** Deleting takes one live session out of the store, of its list and of being active, and touches no other. */
  lemma DeletionMeans(st: Store, id: string)
    requires id in st.sessions
    ensures var after := Next(st, DeleteByID(id));
            && after.sessions == st.sessions - {id} && after.counter == st.counter
            && (forall u :: u in after.active <==> u in st.active && st.active[u] != id)
            && (forall u | u in after.active :: after.active[u] == st.active[u])
            && after.users.Keys == st.users.Keys
            && forall u | u in st.users :: after.users[u] == Without(st.users[u], {id})
  {
  }

  // ---- What holds in every reachable state ----

  ghost predicate Issued(id: string, counter: nat) {
    exists n: nat :: 1 <= n <= counter && id == SessionId(n)
  }

  ghost predicate SessionsOk(sessions: map<string, Session>, counter: nat) {
    forall id | id in sessions :: sessions[id].id == id && Issued(id, counter) && ValidIds(sessions[id].ids)
  }

  /** Each listed session is live, and each live one is listed once, by one user. */
  ghost predicate ListsOk(users: map<string, seq<string>>, live: set<string>) {
    && (forall u | u in users :: NoRepeats(users[u]))
    && (forall u, id | u in users && id in users[u] :: id in live)
    && (forall u, v, id | u in users && v in users && id in users[u] && id in users[v] :: u == v)
    && (forall id | id in live :: exists u :: u in users && id in users[u])
  }

  ghost predicate ActiveOk(active: map<string, string>, users: map<string, seq<string>>) {
    forall u | u in active :: u in users && active[u] in users[u]
  }

  ghost predicate Valid(st: Store) {
    SessionsOk(st.sessions, st.counter) && ListsOk(st.users, st.sessions.Keys) && ActiveOk(st.active, st.users)
  }

  /** What deleting by position relies on. */
  ghost predicate ListsDistinct(users: map<string, seq<string>>, active: map<string, string>) {
    (forall u | u in users :: NoRepeats(users[u])) && active.Keys <= users.Keys
  }

  lemma ListsAreDistinct(st: Store)
    requires Valid(st)
    ensures ListsDistinct(st.users, st.active)
  {
  }

  /** The next id was never given out, so it is no session's and on nobody's list. */
  lemma NextIdIsFresh(st: Store)
    requires Valid(st)
    ensures !Issued(SessionId(st.counter + 1), st.counter)
    ensures SessionId(st.counter + 1) !in st.sessions
  {
    forall n: nat | 1 <= n <= st.counter ensures SessionId(n) != SessionId(st.counter + 1) {
      if SessionId(n) == SessionId(st.counter + 1) { SessionIdInjective(n, st.counter + 1); }
    }
  }

  lemma ListsGrow(users: map<string, seq<string>>, live: set<string>, user: string, id: string)
    requires ListsOk(users, live) && id !in live
    ensures ListsOk(users[user := GetOr(users, user, []) + [id]], live + {id})
  {
    var after := users[user := GetOr(users, user, []) + [id]];
    assert id in after[user];
    forall x | x in live + {id} ensures exists u :: u in after && x in after[u] {
      if x in live {
        var u :| u in users && x in users[u];
        assert u in after && x in after[u];
      }
    }
  }

  lemma SessionsGrow(sessions: map<string, Session>, counter: nat, s: Session)
    requires SessionsOk(sessions, counter) && s.id == SessionId(counter + 1) && ValidIds(s.ids)
    ensures SessionsOk(sessions[s.id := s], counter + 1)
  {
    assert Issued(s.id, counter + 1);
    forall x | x in sessions ensures Issued(x, counter + 1) {
      assert Issued(x, counter);
    }
  }

  lemma CreateKeepsValid(st: Store, user: string, name: string, ids: Ids, activate: bool)
    requires Valid(st) && ValidIds(ids)
    ensures Valid(Create(st, user, name, ids, activate))
  {
    NextIdIsFresh(st);
    var id, after := SessionId(st.counter + 1), Create(st, user, name, ids, activate);
    SessionsGrow(st.sessions, st.counter, Session(id, name, ids));
    ListsGrow(st.users, st.sessions.Keys, user, id);
    assert after.sessions.Keys == st.sessions.Keys + {id};
    assert ActiveOk(after.active, after.users);
  }

  /** Making a session of the user's own list active keeps validity. */
  lemma ActivateKeepsValid(st: Store, user: string, id: string)
    requires Valid(st) && id in ListOf(st, user)
    ensures Valid(st.(active := st.active[user := id]))
  {
  }

  /** Changing the ids and names of live sessions keeps validity. */
  lemma RewriteKeepsValid(st: Store, sessions: map<string, Session>)
    requires Valid(st) && sessions.Keys == st.sessions.Keys && SessionsOk(sessions, st.counter)
    ensures Valid(st.(sessions := sessions))
  {
  }

  lemma {:induction false} WithoutKeepsDistinct(list: seq<string>, dead: set<string>)
    requires NoRepeats(list)
    ensures NoRepeats(Without(list, dead))
  {
    if list != [] {
      WithoutKeepsDistinct(list[1..], dead);
      assert list[0] !in list[1..];
    }
  }

  /** The lists and the active sessions once the users in `done` have been visited to drop an id. */
  function ListsAfter(users: map<string, seq<string>>, done: set<string>, id: string): (r: map<string, seq<string>>)
    ensures done == {} ==> r == users
    ensures done == users.Keys ==> r == ListsWithout(users, {id})
  {
    map u | u in users :: if u in done then Without(users[u], {id}) else users[u]
  }

  function ActiveAfter(active: map<string, string>, done: set<string>, id: string): (r: map<string, string>)
    ensures done == {} ==> r == active
    ensures active.Keys <= done ==> r == ActiveWithout(active, {id})
  {
    map u | u in active && (u !in done || active[u] != id) :: active[u]
  }

  lemma DropOne(users: map<string, seq<string>>, active: map<string, string>, done: set<string>, user: string,
                id: string)
    requires user in users && user !in done
    ensures user in ListsAfter(users, done, id) && ListsAfter(users, done, id)[user] == users[user]
    ensures ListsAfter(users, done + {user}, id) == ListsAfter(users, done, id)[user := Without(users[user], {id})]
    ensures ActiveAfter(active, done + {user}, id) ==
            if user in active && active[user] == id then ActiveAfter(active, done, id) - {user}
            else ActiveAfter(active, done, id)
  {
  }

  /** Cutting the one place an id stands in a repeat-free list takes the id out. */
  lemma {:induction false} CutIsWithout(list: seq<string>, i: nat)
    requires NoRepeats(list) && i < |list|
    ensures list[..i] + list[i + 1..] == Without(list, {list[i]})
  {
    if i == 0 {
      assert list[0] !in list[1..];
      WithoutAbsent(list[1..], {list[0]});
    } else {
      CutIsWithout(list[1..], i - 1);
      assert list[..i] + list[i + 1..] == [list[0]] + (list[1..][..i - 1] + list[1..][i..]);
    }
  }

  lemma {:induction false} WithoutAbsent(list: seq<string>, dead: set<string>)
    requires forall id | id in dead :: id !in list
    ensures Without(list, dead) == list
  {
    if list != [] { WithoutAbsent(list[1..], dead); }
  }

  lemma {:induction false} WithoutTwice(list: seq<string>, a: set<string>, b: set<string>)
    ensures Without(Without(list, a), b) == Without(list, a + b)
  {
    if list != [] { WithoutTwice(list[1..], a, b); }
  }

  /** Deleting one set of sessions and then another is deleting both at once. */
  lemma DeleteTwice(st: Store, a: set<string>, b: set<string>)
    ensures Delete(Delete(st, a), b) == Delete(st, a + b)
  {
    assert st.sessions - a - b == st.sessions - (a + b);
    forall u | u in st.users ensures Without(Without(st.users[u], a), b) == Without(st.users[u], a + b) {
      WithoutTwice(st.users[u], a, b);
    }
  }

  lemma DeleteNothing(st: Store)
    ensures Delete(st, {}) == st
  {
    assert st.sessions - {} == st.sessions;
    forall u | u in st.users ensures Without(st.users[u], {}) == st.users[u] {
      WithoutAbsent(st.users[u], {});
    }
  }

  lemma DeleteKeepsValid(st: Store, dead: set<string>)
    requires Valid(st)
    ensures Valid(Delete(st, dead))
  {
    var after := Delete(st, dead);
    forall u | u in after.users ensures NoRepeats(after.users[u]) {
      WithoutKeepsDistinct(st.users[u], dead);
    }
    forall id | id in after.sessions ensures exists u :: u in after.users && id in after.users[u] {
      var u :| u in st.users && id in st.users[u];
      assert id in after.users[u];
    }
  }

  lemma DeleteKeepsDistinct(st: Store, dead: set<string>)
    requires ListsDistinct(st.users, st.active)
    ensures ListsDistinct(Delete(st, dead).users, Delete(st, dead).active)
  {
    forall u | u in st.users ensures NoRepeats(Without(st.users[u], dead)) {
      WithoutKeepsDistinct(st.users[u], dead);
    }
  }

  /** The mapped sessions but those still to be visited are gone. */
  ghost predicate Visited(st: Store, agentSessionId: string, rest: set<string>, gone: set<string>)
    ensures rest == {} && Visited(st, agentSessionId, rest, gone) ==> gone == MappedTo(st, agentSessionId)
  {
    gone == MappedTo(st, agentSessionId) - rest
  }

  lemma VisitStarts(st: Store, agentSessionId: string)
    ensures Visited(st, agentSessionId, st.sessions.Keys, {}) && Delete(st, {}) == st
  {
    DeleteNothing(st);
  }

  lemma VisitedGrows(st: Store, agentSessionId: string, rest: set<string>, gone: set<string>, id: string)
    requires Visited(st, agentSessionId, rest, gone) && id in rest
    ensures var hit := id in MappedTo(st, agentSessionId) && id !in gone;
            && Visited(st, agentSessionId, rest - {id}, if hit then gone + {id} else gone)
            && (hit <==> id in MappedTo(Delete(st, gone), agentSessionId))
            && (hit ==> |gone + {id}| == |gone| + 1)
  {
  }

  /** Visiting one more session deletes it if it is still there and mapped. */
  lemma VisitOne(st: Store, agentSessionId: string, rest: set<string>, gone: set<string>, id: string)
    returns (next: set<string>)
    requires Visited(st, agentSessionId, rest, gone) && id in rest
    ensures Visited(st, agentSessionId, rest - {id}, next)
    ensures var hit := id in MappedTo(Delete(st, gone), agentSessionId);
            && Delete(Delete(st, gone), if hit then {id} else {}) == Delete(st, next)
            && |next| == |gone| + if hit then 1 else 0
  {
    VisitedGrows(st, agentSessionId, rest, gone, id);
    if id in MappedTo(Delete(st, gone), agentSessionId) {
      DeleteTwice(st, gone, {id});
      next := gone + {id};
    } else {
      DeleteNothing(Delete(st, gone));
      next := gone;
    }
  }

  lemma RewriteKeepsSessions(sessions: map<string, Session>, after: map<string, Session>, counter: nat, op: IdOp,
                             name: string)
    requires SessionsOk(sessions, counter) && after.Keys == sessions.Keys
    requires forall id | id in sessions :: after[id] == sessions[id] || after[id] == WithIds(sessions[id], op, name)
    ensures SessionsOk(after, counter)
  {
    forall id | id in after ensures ValidIds(after[id].ids) {
      KnownGrowsByAssigned(sessions[id].ids, op);
    }
  }

  lemma OnSessionKeepsValid(st: Store, id: string, op: IdOp, name: string)
    requires Valid(st)
    ensures Valid(Next(st, OnSession(id, op, name)))
  {
    if id in st.sessions {
      var after := st.sessions[id := WithIds(st.sessions[id], op, name)];
      assert after.Keys == st.sessions.Keys;
      RewriteKeepsSessions(st.sessions, after, st.counter, op, name);
      RewriteKeepsValid(st, after);
    }
  }

  lemma InvalidateKeepsValid(st: Store, t: string)
    requires Valid(st)
    ensures Valid(Next(st, InvalidateForAgent(t)))
  {
    var after := Next(st, InvalidateForAgent(t)).sessions;
    RewriteKeepsSessions(st.sessions, after, st.counter, InvalidateFor(t), "");
    RewriteKeepsValid(st, after);
  }

  lemma SwitchToAgentKeepsValid(st: Store, user: string, aid: string, agent: string, summary: string)
    requires Valid(st)
    ensures Valid(SwitchToAgent(st, user, aid, agent, summary))
  {
    var found := FirstWith(ListOf(st, user), ByAgentSession(st, aid));
    if found.Some? {
      ActivateKeepsValid(st, user, found.value);
    } else {
      KnownGrowsByAssigned(NO_IDS, SetAgentInfo(aid, agent));
      CreateKeepsValid(st, user, summary, ApplyIds(NO_IDS, SetAgentInfo(aid, agent)), true);
    }
  }

  lemma LifecycleKeepsValid(st: Store, step: Step)
    requires Valid(st) && (step.GetOrCreateActive? || step.NewSession? || step.NewSideSession? || step.SwitchSession?)
    ensures Valid(Next(st, step))
  {
    match step
    case GetOrCreateActive(user) => if !HasActive(st, user) { CreateKeepsValid(st, user, "default", NO_IDS, true); }
    case NewSession(user, name) => CreateKeepsValid(st, user, name, NO_IDS, true);
    case NewSideSession(user, name) => CreateKeepsValid(st, user, name, NO_IDS, false);
    case SwitchSession(user, target) =>
      var found := FirstWith(ListOf(st, user), ByTarget(st, target));
      if found.Some? { ActivateKeepsValid(st, user, found.value); }
  }

  lemma StepKeepsValid(st: Store, step: Step)
    requires Valid(st)
    ensures Valid(Next(st, step))
  {
    match step
    case SwitchToAgentSession(user, aid, agent, summary) => SwitchToAgentKeepsValid(st, user, aid, agent, summary);
    case DeleteByID(id) => DeleteKeepsValid(st, {id});
    case DeleteByAgentSessionID(aid) => DeleteKeepsValid(st, MappedTo(st, aid));
    case InvalidateForAgent(t) => InvalidateKeepsValid(st, t);
    case OnSession(id, op, name) => OnSessionKeepsValid(st, id, op, name);
    case _ => LifecycleKeepsValid(st, step);
  }

  /** In every reachable state the active session is a live one of its user's own repeat-free list. */
  lemma {:induction false} RunIsValid(steps: seq<Step>)
    ensures Valid(Run(steps))
    ensures forall u | u in Run(steps).active ::
              && HasActive(Run(steps), u) && Run(steps).active[u] in ListOf(Run(steps), u)
              && NoRepeats(ListOf(Run(steps), u))
  {
    if steps != [] {
      RunIsValid(steps[..|steps| - 1]);
      StepKeepsValid(Run(steps[..|steps| - 1]), steps[|steps| - 1]);
    }
  }

  lemma CreateAddsOne(st: Store, user: string, name: string, ids: Ids, activate: bool)
    ensures Create(st, user, name, ids, activate).sessions.Keys == st.sessions.Keys + {SessionId(st.counter + 1)}
    ensures Create(st, user, name, ids, activate).counter == st.counter + 1
  {
  }

  lemma StepAddsOneAtMost(st: Store, step: Step)
    ensures Next(st, step).counter >= st.counter
    ensures Next(st, step).sessions.Keys <= st.sessions.Keys + {SessionId(st.counter + 1)}
  {
    match step {
      case GetOrCreateActive(user) => CreateAddsOne(st, user, "default", NO_IDS, true);
      case NewSession(user, name) => CreateAddsOne(st, user, name, NO_IDS, true);
      case NewSideSession(user, name) => CreateAddsOne(st, user, name, NO_IDS, false);
      case SwitchToAgentSession(user, aid, agent, summary) =>
        CreateAddsOne(st, user, summary, ApplyIds(NO_IDS, SetAgentInfo(aid, agent)), true);
      case _ =>
    }
  }

  /** A step makes at most one session, under the next id, and only deletes otherwise. */
  lemma StepMakesFreshOnly(st: Store, step: Step)
    requires Valid(st)
    ensures Next(st, step).counter >= st.counter
    ensures forall id | id in Next(st, step).sessions && id !in st.sessions :: !Issued(id, st.counter)
  {
    NextIdIsFresh(st);
    StepAddsOneAtMost(st, step);
  }

  /** A session that is gone never comes back under its id. */
  lemma {:induction false} GoneStaysGone(st: Store, id: string, later: seq<Step>)
    requires Valid(st) && Issued(id, st.counter) && id !in st.sessions
    ensures id !in RunFrom(st, later).sessions && Valid(RunFrom(st, later))
    decreases |later|
  {
    if later != [] {
      StepMakesFreshOnly(st, later[0]);
      StepKeepsValid(st, later[0]);
      GoneStaysGone(Next(st, later[0]), id, later[1..]);
    }
  }

  lemma {:induction false} RunFromKeepsValid(st: Store, steps: seq<Step>)
    requires Valid(st)
    ensures Valid(RunFrom(st, steps)) && RunFrom(st, steps).counter >= st.counter
    decreases |steps|
  {
    if steps != [] {
      StepMakesFreshOnly(st, steps[0]);
      StepKeepsValid(st, steps[0]);
      RunFromKeepsValid(Next(st, steps[0]), steps[1..]);
    }
  }

  /** No id is given out twice: a session deleted after some run stays deleted however the run goes on. */
  lemma DeletedStaysDeleted(steps: seq<Step>, until: seq<Step>, later: seq<Step>, id: string)
    requires id in Run(steps).sessions && id !in RunFrom(Run(steps), until).sessions
    ensures id !in RunFrom(RunFrom(Run(steps), until), later).sessions
  {
    RunIsValid(steps);
    RunFromKeepsValid(Run(steps), until);
    GoneStaysGone(RunFrom(Run(steps), until), id, later);
  }

  // ---- Agent session ids ----

  /** The real agent session ids a step sets on a session, read off the step's arguments. */
  function SetBy(st: Store, step: Step, id: string): set<string> {
    match step
    case OnSession(at, op, _) => if at == id && id in st.sessions then Assigned(st.sessions[id].ids, op) else {}
    case SwitchToAgentSession(user, aid, _, _) =>
      if id == SessionId(st.counter + 1) && FirstWith(ListOf(st, user), ByAgentSession(st, aid)).None? && Real(aid) then
        {aid}
      else {}
    case _ => {}
  }

  function EverSet(steps: seq<Step>, id: string): set<string> {
    if steps == [] then {}
    else
      var prefix := steps[..|steps| - 1];
      EverSet(prefix, id) + SetBy(Run(prefix), steps[|steps| - 1], id)
  }

  /** The ids a session of a store is known by; none if there is no such session. */
  function KnownAt(st: Store, id: string): set<string> {
    if id in st.sessions then Known(st.sessions[id].ids) else {}
  }

  lemma CreateKnown(st: Store, user: string, name: string, ids: Ids, activate: bool, id: string)
    requires SessionId(st.counter + 1) !in st.sessions
    ensures KnownAt(Create(st, user, name, ids, activate), id) ==
            if id == SessionId(st.counter + 1) then Known(ids) else KnownAt(st, id)
  {
  }

  lemma SwitchKnown(st: Store, user: string, aid: string, agent: string, summary: string, id: string)
    requires SessionId(st.counter + 1) !in st.sessions
    ensures KnownAt(SwitchToAgent(st, user, aid, agent, summary), id) ==
            KnownAt(st, id) + SetBy(st, SwitchToAgentSession(user, aid, agent, summary), id)
  {
    var ids := ApplyIds(NO_IDS, SetAgentInfo(aid, agent));
    KnownGrowsByAssigned(NO_IDS, SetAgentInfo(aid, agent));
    CreateKnown(st, user, summary, ids, true, id);
  }

  lemma StepKeepsKnown(st: Store, step: Step, id: string)
    requires SessionId(st.counter + 1) !in st.sessions && id in Next(st, step).sessions
    ensures KnownAt(Next(st, step), id) == KnownAt(st, id) + SetBy(st, step, id)
  {
    match step
    case GetOrCreateActive(user) => CreateKnown(st, user, "default", NO_IDS, true, id);
    case NewSession(user, name) => CreateKnown(st, user, name, NO_IDS, true, id);
    case NewSideSession(user, name) => CreateKnown(st, user, name, NO_IDS, false, id);
    case SwitchSession(_, _) =>
    case SwitchToAgentSession(user, aid, agent, summary) => SwitchKnown(st, user, aid, agent, summary, id);
    case DeleteByID(_) =>
    case DeleteByAgentSessionID(_) =>
    case InvalidateForAgent(t) => KnownGrowsByAssigned(st.sessions[id].ids, InvalidateFor(t));
    case OnSession(at, op, _) =>
      if at == id { KnownGrowsByAssigned(st.sessions[id].ids, op); }
  }

  /** Until its session is created no id is set on it. */
  lemma {:induction false} NothingSetBefore(steps: seq<Step>, id: string)
    requires !Issued(id, Run(steps).counter)
    ensures EverSet(steps, id) == {}
  {
    if steps != [] {
      var prefix := steps[..|steps| - 1];
      RunIsValid(prefix);
      StepMakesFreshOnly(Run(prefix), steps[|steps| - 1]);
      assert Issued(id, Run(prefix).counter) ==> Issued(id, Run(steps).counter);
      NothingSetBefore(prefix, id);
    }
  }

  /** A live session is known by exactly the real ids ever set on it, whatever replaced or cleared them. */
  lemma {:induction false} KnownIsEverSet(steps: seq<Step>, id: string)
    requires id in Run(steps).sessions
    ensures Known(Run(steps).sessions[id].ids) == EverSet(steps, id)
  {
    if steps != [] {
      var prefix, step := steps[..|steps| - 1], steps[|steps| - 1];
      RunIsValid(prefix);
      NextIdIsFresh(Run(prefix));
      StepKeepsKnown(Run(prefix), step, id);
      if id in Run(prefix).sessions {
        KnownIsEverSet(prefix, id);
      } else {
        StepMakesFreshOnly(Run(prefix), step);
        NothingSetBefore(prefix, id);
      }
    }
  }

  /** After an invalidation no session holds an id of another agent type; sessions of this type keep theirs. */
  lemma InvalidationLeavesNoneStale(st: Store, t: string)
    ensures var after := Next(st, InvalidateForAgent(t));
            && after.sessions.Keys == st.sessions.Keys
            && forall id | id in st.sessions ::
                 && !Stale(after.sessions[id].ids, t)
                 && (!Stale(st.sessions[id].ids, t) ==> after.sessions[id].ids == st.sessions[id].ids)
                 && (Real(st.sessions[id].ids.agentSessionId) ==>
                       st.sessions[id].ids.agentSessionId in Known(after.sessions[id].ids))
  {
    forall id | id in st.sessions
      ensures Known(ApplyIds(st.sessions[id].ids, InvalidateFor(t))) == Known(st.sessions[id].ids)
    {
      KnownGrowsByAssigned(st.sessions[id].ids, InvalidateFor(t));
    }
  }

  ghost predicate Owned(st: Store, agentSessionId: string) {
    exists id :: id in st.sessions && agentSessionId in Tracked(st.sessions[id].ids)
  }

  /** An agent session is recognised as owned exactly when it was ever set on a session still alive. */
  lemma OwnedIsEverSet(steps: seq<Step>, agentSessionId: string)
    ensures Owned(Run(steps), agentSessionId) <==>
            exists id :: id in Run(steps).sessions && agentSessionId in EverSet(steps, id)
  {
    var st := Run(steps);
    RunIsValid(steps);
    forall id | id in st.sessions ensures Tracked(st.sessions[id].ids) == EverSet(steps, id) {
      KnownIsEverSet(steps, id);
    }
  }
}
