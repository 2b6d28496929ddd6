/**
 * Fork groups: transcripts of one project with the same custom title and the same first user message.
 * A group keeps one entry; which one, and when that is the newest, is stated here.
 */
module ForkLineage {
  import opened Lineage
  import opened Sequences
  import opened Text

  datatype ForkKey = ForkKey(projectKey: string, customTitle: string, firstUserAt: nat)

  predicate Grouped(e: Entry) {
    Trim(e.customTitle) != "" && e.firstUserAt != 0
  }

  function ForkKeyOf(e: Entry): ForkKey {
    ForkKey(e.key.projectKey, Trim(e.customTitle), e.firstUserAt)
  }

  predicate InGroup(entries: seq<Entry>, key: ForkKey, i: int) {
    0 <= i < |entries| && Grouped(entries[i]) && ForkKeyOf(entries[i]) == key
  }

  predicate Positions(entries: seq<Entry>, idxs: seq<int>) {
    forall k | 0 <= k < |idxs| :: 0 <= idxs[k] < |entries|
  }

  /** The positions of a group among the first n entries, in list order. */
  function GroupOf(entries: seq<Entry>, key: ForkKey, n: nat): (idxs: seq<int>)
    requires n <= |entries|
    ensures forall k | 0 <= k < |idxs| :: 0 <= idxs[k] < n && InGroup(entries, key, idxs[k])
    ensures forall i | 0 <= i < n && InGroup(entries, key, i) :: i in idxs
    ensures forall a, b | 0 <= a < b < |idxs| :: idxs[a] < idxs[b]
  {
    if n == 0 then []
    else if InGroup(entries, key, n - 1) then GroupOf(entries, key, n - 1) + [n - 1]
    else GroupOf(entries, key, n - 1)
  }

  /** The first member whose session id is the largest of the group. */
  function LargestId(entries: seq<Entry>, idxs: seq<int>): (p: int)
    requires idxs != [] && Positions(entries, idxs)
    ensures p in idxs
  {
    var last := idxs[|idxs| - 1];
    if |idxs| == 1 then last
    else
      var best := LargestId(entries, idxs[..|idxs| - 1]);
      if Before(entries[best].key.sessionId, entries[last].key.sessionId) then last else best
  }

  predicate TiedAtTop(entries: seq<Entry>, idxs: seq<int>)
    requires Positions(entries, idxs)
  {
    |idxs| > 1 && entries[idxs[0]].updatedAt == entries[idxs[1]].updatedAt
  }

  function ForkPrimary(entries: seq<Entry>, idxs: seq<int>): (p: int)
    requires idxs != [] && Positions(entries, idxs)
    ensures p in idxs
  {
    if TiedAtTop(entries, idxs) then LargestId(entries, idxs) else idxs[0]
  }

  function WholeGroup(entries: seq<Entry>, key: ForkKey): seq<int> {
    GroupOf(entries, key, |entries|)
  }

  /** An entry stays when it is in no fork group or stands for its group. */
  predicate KeptByFork(entries: seq<Entry>, i: int)
    requires 0 <= i < |entries|
  {
    Grouped(entries[i]) ==>
      assert InGroup(entries, ForkKeyOf(entries[i]), i);
      i == ForkPrimary(entries, WholeGroup(entries, ForkKeyOf(entries[i])))
  }

  function ForkKept(entries: seq<Entry>, n: nat): seq<Entry>
    requires n <= |entries|
  {
    if n == 0 then []
    else ForkKept(entries, n - 1) + if KeptByFork(entries, n - 1) then [entries[n - 1]] else []
  }

  function ForkSurvivors(entries: seq<Entry>): seq<Entry> {
    ForkKept(entries, |entries|)
  }

  function ForkHiddenKeys(entries: seq<Entry>): set<SessionKey> {
    set i | 0 <= i < |entries| && !KeptByFork(entries, i) :: entries[i].key
  }

  /** Every fork group keeps exactly one of its members. */
  lemma OneSurvivorPerFork(entries: seq<Entry>, key: ForkKey)
    requires exists i :: InGroup(entries, key, i)
    ensures exists p :: InGroup(entries, key, p) && KeptByFork(entries, p)
    ensures forall p, q |
              && InGroup(entries, key, p) && KeptByFork(entries, p)
              && InGroup(entries, key, q) && KeptByFork(entries, q) :: p == q
  {
    var i :| InGroup(entries, key, i);
    var idxs := WholeGroup(entries, key);
    assert i in idxs;
    var p := ForkPrimary(entries, idxs);
    assert InGroup(entries, key, p) && KeptByFork(entries, p);
  }

  lemma {:induction false} LargestIdLeads(entries: seq<Entry>, idxs: seq<int>) returns (at: nat)
    requires idxs != [] && Positions(entries, idxs)
    ensures at < |idxs| && idxs[at] == LargestId(entries, idxs)
    ensures forall k | 0 <= k < at :: Before(entries[idxs[k]].key.sessionId, entries[idxs[at]].key.sessionId)
    ensures forall k | 0 <= k < |idxs| :: !Before(entries[idxs[at]].key.sessionId, entries[idxs[k]].key.sessionId)
  {
    var last := |idxs| - 1;
    var lastId := entries[idxs[last]].key.sessionId;
    BeforeIrreflexive(lastId);
    if last == 0 {
      at := 0;
    } else {
      var front := idxs[..last];
      var best := LargestIdLeads(entries, front);
      var bestId := entries[front[best]].key.sessionId;
      if Before(bestId, lastId) {
        at := last;
        forall k | 0 <= k < last
          ensures Before(entries[idxs[k]].key.sessionId, lastId) && !Before(lastId, entries[idxs[k]].key.sessionId)
        {
          var id := entries[front[k]].key.sessionId;
          BeforeTotal(id, bestId);
          if Before(id, bestId) { BeforeTransitive(id, bestId, lastId); }
          if Before(lastId, id) { BeforeTransitive(lastId, id, lastId); }
        }
      } else {
        at := best;
        assert forall k | 0 <= k < last :: idxs[k] == front[k];
      }
    }
  }

  /** The list order the filter is given: newest first. */
  predicate NewestFirst(entries: seq<Entry>) {
    forall i, j | 0 <= i < j < |entries| :: entries[i].updatedAt >= entries[j].updatedAt
  }

  /** An older member whose session id is beyond those of all members tied at the top. */
  predicate OlderMemberOvertakes(entries: seq<Entry>, idxs: seq<int>)
    requires idxs != [] && Positions(entries, idxs)
  {
    exists o :: o in idxs && entries[o].updatedAt < entries[idxs[0]].updatedAt
      && forall t | t in idxs && entries[t].updatedAt == entries[idxs[0]].updatedAt ::
           Before(entries[t].key.sessionId, entries[o].key.sessionId)
  }

  /** A leader among the newest leaves no older member beyond them all. */
  lemma NewestLeaderIsNotOvertaken(entries: seq<Entry>, idxs: seq<int>, at: nat)
    requires Positions(entries, idxs) && at < |idxs| && entries[idxs[at]].updatedAt == entries[idxs[0]].updatedAt
    requires forall k | 0 <= k < |idxs| :: !Before(entries[idxs[at]].key.sessionId, entries[idxs[k]].key.sessionId)
    ensures !OlderMemberOvertakes(entries, idxs)
  {
    var p := idxs[at];
    forall o | o in idxs && entries[o].updatedAt < entries[p].updatedAt
      ensures p in idxs && !Before(entries[p].key.sessionId, entries[o].key.sessionId)
    {
      var k :| 0 <= k < |idxs| && idxs[k] == o;
    }
  }

  /** An older leader is such a member. */
  lemma OlderLeaderOvertakes(entries: seq<Entry>, idxs: seq<int>, at: nat)
    requires Positions(entries, idxs) && at < |idxs| && entries[idxs[at]].updatedAt < entries[idxs[0]].updatedAt
    requires forall k | 0 <= k < at :: Before(entries[idxs[k]].key.sessionId, entries[idxs[at]].key.sessionId)
    requires forall k | at <= k < |idxs| :: entries[idxs[k]].updatedAt <= entries[idxs[at]].updatedAt
    ensures OlderMemberOvertakes(entries, idxs)
  {
    var p := idxs[at];
    assert p in idxs;
    forall t | t in idxs && entries[t].updatedAt == entries[idxs[0]].updatedAt
      ensures Before(entries[t].key.sessionId, entries[p].key.sessionId)
    {
      var k :| 0 <= k < |idxs| && idxs[k] == t;
      assert k < at;
    }
  }

  lemma GroupIsNewestFirst(entries: seq<Entry>, key: ForkKey, at: nat)
    requires NewestFirst(entries) && at < |WholeGroup(entries, key)|
    ensures var idxs := WholeGroup(entries, key);
            && entries[idxs[at]].updatedAt <= entries[idxs[0]].updatedAt
            && forall k | at <= k < |idxs| :: entries[idxs[k]].updatedAt <= entries[idxs[at]].updatedAt
  {
    var idxs := WholeGroup(entries, key);
    forall k | at <= k < |idxs| ensures entries[idxs[k]].updatedAt <= entries[idxs[at]].updatedAt {
      assert at < k ==> idxs[at] < idxs[k];
    }
    assert 0 < at ==> idxs[0] < idxs[at];
  }

  /** The survivor is a newest member unless the top is tied and an older member overtakes the tie. */
  lemma NewestForkSurvivesIff(entries: seq<Entry>, key: ForkKey)
    requires NewestFirst(entries) && WholeGroup(entries, key) != []
    ensures var idxs := WholeGroup(entries, key);
            entries[ForkPrimary(entries, idxs)].updatedAt == entries[idxs[0]].updatedAt
            <==> !(TiedAtTop(entries, idxs) && OlderMemberOvertakes(entries, idxs))
  {
    var idxs := WholeGroup(entries, key);
    if TiedAtTop(entries, idxs) {
      var at := LargestIdLeads(entries, idxs);
      GroupIsNewestFirst(entries, key, at);
      if entries[idxs[at]].updatedAt == entries[idxs[0]].updatedAt {
        NewestLeaderIsNotOvertaken(entries, idxs, at);
      } else {
        OlderLeaderOvertakes(entries, idxs, at);
      }
    }
  }

  function ThreeForks(): seq<Entry> {
    [Entry(SessionKey("p", "a"), "", "f", 1, 9, []),
     Entry(SessionKey("p", "b"), "", "f", 1, 9, []),
     Entry(SessionKey("p", "c"), "", "f", 1, 1, [])]
  }

  lemma MemberJoins(entries: seq<Entry>, key: ForkKey, n: nat)
    requires n < |entries| && InGroup(entries, key, n)
    ensures GroupOf(entries, key, n + 1) == GroupOf(entries, key, n) + [n]
  {
  }

  lemma ForkIsMember(i: int)
    requires 0 <= i < 3
    ensures InGroup(ThreeForks(), ForkKey("p", "f", 1), i)
  {
    assert Trim("f") == "f" by { assert !IsSpace("f"[0]); }
    assert ThreeForks()[i].customTitle == "f";
  }

  lemma ThreeForksGroup()
    ensures WholeGroup(ThreeForks(), ForkKey("p", "f", 1)) == [0, 1, 2]
    ensures forall i | 0 <= i < 3 :: InGroup(ThreeForks(), ForkKey("p", "f", 1), i)
  {
    var entries, key := ThreeForks(), ForkKey("p", "f", 1);
    ForkIsMember(0);
    ForkIsMember(1);
    ForkIsMember(2);
    assert GroupOf(entries, key, 0) == [];
    MemberJoins(entries, key, 0);
    MemberJoins(entries, key, 1);
    MemberJoins(entries, key, 2);
  }

  /** Three forks, two tied at the top: the oldest one is kept because its session id is the largest. */
  lemma OldestForkCanSurvive()
    ensures NewestFirst(ThreeForks())
    ensures KeptByFork(ThreeForks(), 2) && !KeptByFork(ThreeForks(), 0) && !KeptByFork(ThreeForks(), 1)
  {
    var entries := ThreeForks();
    ThreeForksGroup();
    assert [0, 1, 2][..2] == [0, 1] && [0, 1][..1] == [0];
    assert Before("a", "b") && Before("b", "c");
    assert LargestId(entries, [0]) == 0;
    assert LargestId(entries, [0, 1]) == 1;
    assert LargestId(entries, [0, 1, 2]) == 2;
  }

  // ---- What the visible list holds ----

  function ForkKeepers(entries: seq<Entry>): int -> bool {
    (i: int) => 0 <= i < |entries| && KeptByFork(entries, i)
  }

  ghost function ForkKeptUpTo(entries: seq<Entry>): int -> seq<Entry> {
    (n: int) => if 0 <= n <= |entries| then ForkKept(entries, n) else []
  }

  lemma ForkKeptOneMore(entries: seq<Entry>, i: nat)
    requires i < |entries|
    ensures ForkKeptUpTo(entries)(i + 1) ==
            ForkKeptUpTo(entries)(i) + if ForkKeepers(entries)(i) then [entries[i]] else []
  {
  }

  lemma ForkKeptIsPicked(entries: seq<Entry>)
    ensures ForkSurvivors(entries) == PickedBy(entries, ForkKeepers(entries), |entries|)
  {
    forall i: nat | i < |entries|
      ensures ForkKeptUpTo(entries)(i + 1) ==
              ForkKeptUpTo(entries)(i) + if ForkKeepers(entries)(i) then [entries[i]] else []
    {
      ForkKeptOneMore(entries, i);
    }
    GrownIsPicked(entries, ForkKeepers(entries), ForkKeptUpTo(entries), |entries|);
  }

  /** Both have a title and a first message, and project, title and the time of that message are the same. */
  predicate ForkPair(a: Entry, b: Entry) {
    && Trim(a.customTitle) != "" && a.firstUserAt != 0
    && a.key.projectKey == b.key.projectKey && Trim(a.customTitle) == Trim(b.customTitle)
    && a.firstUserAt == b.firstUserAt
  }

  /** The visible list keeps every entry outside the groups at its place, and of each fork group one. */
  lemma EachForkListedOnce(entries: seq<Entry>, i: int) returns (at: seq<int>, k: int)
    requires 0 <= i < |entries|
    ensures PicksOut(entries, ForkSurvivors(entries), at) && 0 <= k < |at|
    ensures !ForkPair(entries[i], entries[i]) ==> at[k] == i
    ensures ForkPair(entries[i], entries[i]) ==>
              forall m | 0 <= m < |at| :: ForkPair(entries[i], entries[at[m]]) <==> m == k
  {
    ForkKeptIsPicked(entries);
    at := PlacesOf(ForkKeepers(entries), |entries|);
    PickedPlaces(entries, ForkKeepers(entries), |entries|);
    PlacesBelow(ForkKeepers(entries), |entries|);
    var p := ForkStandIn(entries, i);
    k := PlaceOf(ForkKeepers(entries), |entries|, p);
    forall m | 0 <= m < |at| && ForkPair(entries[i], entries[i])
      ensures ForkPair(entries[i], entries[at[m]]) <==> m == k
    {
      PlaceIsUnique(entries, ForkSurvivors(entries), at, k, m);
      assert ForkKeepers(entries)(at[m]);
      if at[m] != p && ForkPair(entries[i], entries[at[m]]) { StandInIsUnique(entries, i, p, at[m]); }
    }
  }

  lemma ForkStandIn(entries: seq<Entry>, i: int) returns (p: int)
    requires 0 <= i < |entries|
    ensures ForkKeepers(entries)(p) && 0 <= p < |entries|
    ensures if ForkPair(entries[i], entries[i]) then ForkPair(entries[i], entries[p]) else p == i
  {
    p := i;
    if Grouped(entries[i]) {
      var key := ForkKeyOf(entries[i]);
      assert InGroup(entries, key, i);
      OneSurvivorPerFork(entries, key);
      p :| InGroup(entries, key, p) && KeptByFork(entries, p);
    }
  }

  lemma StandInIsUnique(entries: seq<Entry>, i: int, p: int, q: int)
    requires 0 <= i < |entries| && ForkKeepers(entries)(p) && ForkKeepers(entries)(q)
    requires ForkPair(entries[i], entries[p]) && ForkPair(entries[i], entries[q])
    ensures p == q
  {
    var key := ForkKeyOf(entries[i]);
    assert InGroup(entries, key, i) && InGroup(entries, key, p) && InGroup(entries, key, q);
    OneSurvivorPerFork(entries, key);
  }
}
