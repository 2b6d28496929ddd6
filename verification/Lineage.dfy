/**
 * Session lineage by shared compaction boundaries. Two transcripts of one project that carry the same
 * boundary id belong to one logical session, transitively; a component is shown by one representative.
 */
module Lineage {
  import opened Sequences
  import opened Text

  datatype SessionKey = SessionKey(projectKey: string, sessionId: string)

  /** A catalog entry; `firstUserAt` is 0 when the transcript has no first user message. */
  datatype Entry = Entry(
    key: SessionKey,
    title: string,
    customTitle: string,
    firstUserAt: nat,
    updatedAt: int,
    compactBoundaryIds: seq<string>)

  datatype BoundaryKey = BoundaryKey(projectKey: string, boundaryId: string)

  /** The boundary keys of the given ids in one project: trimmed, the empty ones dropped. */
  function KeysOf(projectKey: string, ids: seq<string>): set<BoundaryKey> {
    set id | id in ids && Trim(id) != "" :: BoundaryKey(projectKey, Trim(id))
  }

  function BoundaryKeys(e: Entry): set<BoundaryKey> {
    KeysOf(e.key.projectKey, e.compactBoundaryIds)
  }

  function AllBoundaryKeys(entries: seq<Entry>): (keys: seq<set<BoundaryKey>>)
    ensures |keys| == |entries| && forall i | 0 <= i < |keys| :: keys[i] == BoundaryKeys(entries[i])
  {
    seq(|entries|, i requires 0 <= i < |entries| => BoundaryKeys(entries[i]))
  }

  // ---- Components: the transitive closure of sharing a key ----

  ghost predicate Linked(keys: seq<set<BoundaryKey>>, i: int, j: int) {
    && 0 <= i < |keys| && 0 <= j < |keys|
    && exists key :: key in keys[i] && key in keys[j]
  }

  ghost predicate IsPath(keys: seq<set<BoundaryKey>>, path: seq<int>) {
    && path != []
    && (forall k | 0 <= k < |path| :: 0 <= path[k] < |keys|)
    && (forall k | 0 <= k < |path| - 1 :: Linked(keys, path[k], path[k + 1]))
  }

  ghost predicate Connected(keys: seq<set<BoundaryKey>>, i: int, j: int) {
    exists path :: IsPath(keys, path) && path[0] == i && path[|path| - 1] == j
  }

  lemma ConnectedReflexive(keys: seq<set<BoundaryKey>>, i: int)
    requires 0 <= i < |keys|
    ensures Connected(keys, i, i)
  {
    assert IsPath(keys, [i]);
  }

  lemma ConnectedTransitive(keys: seq<set<BoundaryKey>>, i: int, j: int, k: int)
    requires Connected(keys, i, j) && Connected(keys, j, k)
    ensures Connected(keys, i, k)
  {
    var p :| IsPath(keys, p) && p[0] == i && p[|p| - 1] == j;
    var q :| IsPath(keys, q) && q[0] == j && q[|q| - 1] == k;
    var path := p + q[1..];
    forall n | 0 <= n < |path| - 1 ensures Linked(keys, path[n], path[n + 1]) {
      if n == |p| - 1 {
        assert path[n] == q[0] && path[n + 1] == q[1];
      } else if n >= |p| {
        assert path[n] == q[n - |p| + 1] && path[n + 1] == q[n - |p| + 2];
      }
    }
    assert IsPath(keys, path);
  }

  lemma {:induction false} ConnectedSymmetric(keys: seq<set<BoundaryKey>>, i: int, j: int)
    requires Connected(keys, i, j)
    ensures Connected(keys, j, i)
  {
    var p :| IsPath(keys, p) && p[0] == i && p[|p| - 1] == j;
    var path := seq(|p|, n requires 0 <= n < |p| => p[|p| - 1 - n]);
    forall n | 0 <= n < |path| - 1 ensures Linked(keys, path[n], path[n + 1]) {
      assert Linked(keys, p[|p| - 2 - n], p[|p| - 2 - n + 1]);
    }
    assert IsPath(keys, path);
  }

  lemma ConnectedByLink(keys: seq<set<BoundaryKey>>, i: int, j: int)
    requires Linked(keys, i, j)
    ensures Connected(keys, i, j)
  {
    assert IsPath(keys, [i, j]);
  }

  /** More keys connect more. */
  lemma ConnectedMonotone(keys: seq<set<BoundaryKey>>, more: seq<set<BoundaryKey>>, i: int, j: int)
    requires |keys| == |more| && (forall n | 0 <= n < |keys| :: keys[n] <= more[n])
    requires Connected(keys, i, j)
    ensures Connected(more, i, j)
  {
    var p :| IsPath(keys, p) && p[0] == i && p[|p| - 1] == j;
    forall n | 0 <= n < |p| - 1 ensures Linked(more, p[n], p[n + 1]) {
      assert Linked(keys, p[n], p[n + 1]);
    }
    assert IsPath(more, p);
  }

  /** Roots separate exactly the components. */
  ghost predicate RootsComplete(keys: seq<set<BoundaryKey>>, rep: seq<int>) {
    |rep| == |keys| && forall i, j | Linked(keys, i, j) :: rep[i] == rep[j]
  }

  ghost predicate RootsSound(keys: seq<set<BoundaryKey>>, rep: seq<int>) {
    |rep| == |keys| && forall i, j | 0 <= i < |rep| && 0 <= j < |rep| && rep[i] == rep[j] :: Connected(keys, i, j)
  }

  lemma {:induction false} PathKeepsRoot(keys: seq<set<BoundaryKey>>, rep: seq<int>, path: seq<int>)
    requires RootsComplete(keys, rep) && IsPath(keys, path)
    ensures rep[path[0]] == rep[path[|path| - 1]]
    decreases |path|
  {
    if |path| > 1 {
      assert Linked(keys, path[0], path[0 + 1]);
      var rest := path[1..];
      forall k | 0 <= k < |rest| - 1 ensures Linked(keys, rest[k], rest[k + 1]) {
        assert Linked(keys, path[k + 1], path[k + 1 + 1]);
      }
      PathKeepsRoot(keys, rep, rest);
    }
  }

  /** Complete and sound roots are equal exactly on connected entries. */
  lemma RootsAreComponents(keys: seq<set<BoundaryKey>>, rep: seq<int>, i: int, j: int)
    requires RootsComplete(keys, rep) && RootsSound(keys, rep) && 0 <= i < |keys| && 0 <= j < |keys|
    ensures rep[i] == rep[j] <==> Connected(keys, i, j)
  {
    if Connected(keys, i, j) {
      var p :| IsPath(keys, p) && p[0] == i && p[|p| - 1] == j;
      PathKeepsRoot(keys, rep, p);
    }
  }

  /** Recording a key nobody carries yet connects nothing. */
  lemma RecordFreshKey(keys: seq<set<BoundaryKey>>, rep: seq<int>, index: int, key: BoundaryKey)
    requires RootsComplete(keys, rep) && RootsSound(keys, rep) && 0 <= index < |keys|
    requires forall i | 0 <= i < |keys| :: key !in keys[i]
    ensures RootsComplete(keys[index := keys[index] + {key}], rep)
            && RootsSound(keys[index := keys[index] + {key}], rep)
  {
    var more := keys[index := keys[index] + {key}];
    forall i, j | Linked(more, i, j) ensures rep[i] == rep[j] {
      if i != index || j != index { assert Linked(keys, i, j); }
    }
    forall i, j | 0 <= i < |rep| && 0 <= j < |rep| && rep[i] == rep[j] ensures Connected(more, i, j) {
      ConnectedMonotone(keys, more, i, j);
    }
  }

  /** Recording a key that `first` carries joins the two components, which is what merging the roots does. */
  lemma RecordSharedKey(keys: seq<set<BoundaryKey>>, rep: seq<int>, merged: seq<int>, first: int, index: int,
                        key: BoundaryKey)
    requires RootsComplete(keys, rep) && RootsSound(keys, rep)
    requires 0 <= index < |keys| && 0 <= first < |keys| && key in keys[first] && |merged| == |rep|
    requires forall i | 0 <= i < |rep| :: merged[i] == if rep[i] == rep[index] then rep[first] else rep[i]
    ensures RootsComplete(keys[index := keys[index] + {key}], merged)
    ensures RootsSound(keys[index := keys[index] + {key}], merged)
  {
    var more := keys[index := keys[index] + {key}];
    forall i, j | Linked(more, i, j) ensures merged[i] == merged[j] {
      var shared :| shared in more[i] && shared in more[j];
      if shared == key {
        if key in keys[i] { assert Linked(keys, i, first); }
        if key in keys[j] { assert Linked(keys, j, first); }
      } else {
        assert Linked(keys, i, j);
      }
    }
    assert key in more[first] && key in more[index];
    assert Linked(more, first, index);
    ConnectedByLink(more, first, index);
    ConnectedSymmetric(more, first, index);
    forall i, j | 0 <= i < |rep| && 0 <= j < |rep| && merged[i] == merged[j] ensures Connected(more, i, j) {
      if rep[i] == rep[j] {
        ConnectedMonotone(keys, more, i, j);
      } else if rep[i] == rep[index] {
        Bridge(keys, more, i, index, first, j);
      } else {
        Bridge(keys, more, i, first, index, j);
      }
    }
  }

  lemma Bridge(keys: seq<set<BoundaryKey>>, more: seq<set<BoundaryKey>>, i: int, a: int, b: int, j: int)
    requires |keys| == |more| && (forall n | 0 <= n < |keys| :: keys[n] <= more[n])
    requires Connected(keys, i, a) && Connected(more, a, b) && Connected(keys, b, j)
    ensures Connected(more, i, j)
  {
    ConnectedMonotone(keys, more, i, a);
    ConnectedMonotone(keys, more, b, j);
    ConnectedTransitive(more, i, a, b);
    ConnectedTransitive(more, i, b, j);
  }

  // ---- The representative of a component ----

  predicate Newer(a: Entry, b: Entry) {
    a.updatedAt > b.updatedAt || (a.updatedAt == b.updatedAt && Before(b.key.sessionId, a.key.sessionId))
  }

  /** Entry i comes before entry j in the choice of a representative; a full tie goes to the earlier index. */
  predicate Outranks(entries: seq<Entry>, i: int, j: int)
    requires 0 <= i < |entries| && 0 <= j < |entries|
  {
    Newer(entries[i], entries[j]) || (!Newer(entries[j], entries[i]) && i <= j)
  }

  lemma NewerThanRest(a: Entry, b: Entry, c: Entry)
    requires Newer(a, b) && !Newer(c, b)
    ensures Newer(a, c) && !Newer(c, a)
  {
    BeforeTotal(b.key.sessionId, c.key.sessionId);
    BeforeIrreflexive(a.key.sessionId);
    if Before(c.key.sessionId, b.key.sessionId) && Before(b.key.sessionId, a.key.sessionId) {
      BeforeTransitive(c.key.sessionId, b.key.sessionId, a.key.sessionId);
    }
    if Before(a.key.sessionId, c.key.sessionId) && Before(c.key.sessionId, a.key.sessionId) {
      BeforeTransitive(a.key.sessionId, c.key.sessionId, a.key.sessionId);
    }
  }

  lemma NewerAsymmetric(a: Entry, b: Entry)
    requires Newer(a, b)
    ensures !Newer(b, a)
  {
    BeforeIrreflexive(a.key.sessionId);
    if Before(a.key.sessionId, b.key.sessionId) && Before(b.key.sessionId, a.key.sessionId) {
      BeforeTransitive(a.key.sessionId, b.key.sessionId, a.key.sessionId);
    }
  }

  lemma OutranksTransitive(entries: seq<Entry>, i: int, j: int, k: int)
    requires 0 <= i < |entries| && 0 <= j < |entries| && 0 <= k < |entries|
    requires Outranks(entries, i, j) && Outranks(entries, j, k)
    ensures Outranks(entries, i, k)
  {
    if Newer(entries[i], entries[j]) {
      if Newer(entries[j], entries[k]) { NewerAsymmetric(entries[j], entries[k]); }
      NewerThanRest(entries[i], entries[j], entries[k]);
    } else if Newer(entries[j], entries[k]) {
      NewerBelow(entries[i], entries[j], entries[k]);
    } else if Newer(entries[k], entries[i]) {
      NewerThanRest(entries[k], entries[i], entries[j]);
    }
  }

  lemma NewerBelow(a: Entry, b: Entry, c: Entry)
    requires !Newer(b, a) && Newer(b, c)
    ensures Newer(a, c)
  {
    BeforeTotal(a.key.sessionId, b.key.sessionId);
    if Before(c.key.sessionId, b.key.sessionId) && Before(b.key.sessionId, a.key.sessionId) {
      BeforeTransitive(c.key.sessionId, b.key.sessionId, a.key.sessionId);
    }
  }

  lemma OutranksAntisymmetric(entries: seq<Entry>, i: int, j: int)
    requires 0 <= i < |entries| && 0 <= j < |entries|
    requires Outranks(entries, i, j) && Outranks(entries, j, i)
    ensures i == j
  {
    if Newer(entries[i], entries[j]) {
      NewerAsymmetric(entries[i], entries[j]);
    }
  }

  ghost predicate SameSession(entries: seq<Entry>, i: int, j: int) {
    Connected(AllBoundaryKeys(entries), i, j)
  }

  /** The entry that stands for its component. */
  ghost predicate IsPrimary(entries: seq<Entry>, i: int) {
    && 0 <= i < |entries|
    && forall j | 0 <= j < |entries| && SameSession(entries, i, j) :: Outranks(entries, i, j)
  }

  ghost function Kept(entries: seq<Entry>, n: nat): seq<Entry>
    requires n <= |entries|
  {
    if n == 0 then []
    else Kept(entries, n - 1) + if IsPrimary(entries, n - 1) then [entries[n - 1]] else []
  }

  /** The visible list: the representatives, in their original order. */
  ghost function Survivors(entries: seq<Entry>): seq<Entry> {
    Kept(entries, |entries|)
  }

  ghost function HiddenKeys(entries: seq<Entry>, n: nat): set<SessionKey>
    requires n <= |entries|
  {
    set i | 0 <= i < n && !IsPrimary(entries, i) :: entries[i].key
  }

  /** The entry of i's component that outranks the whole component. */
  lemma BestOf(entries: seq<Entry>, i: int) returns (k: int)
    requires 0 <= i < |entries|
    ensures 0 <= k < |entries| && SameSession(entries, i, k)
    ensures forall j | 0 <= j < |entries| && SameSession(entries, i, j) :: Outranks(entries, k, j)
  {
    k := i;
    ConnectedReflexive(AllBoundaryKeys(entries), i);
    for m := 0 to |entries|
      invariant 0 <= k < |entries| && SameSession(entries, i, k)
      invariant forall j | 0 <= j < m && SameSession(entries, i, j) :: Outranks(entries, k, j)
    {
      k := Better(entries, i, k, m);
    }
  }

  lemma Better(entries: seq<Entry>, i: int, k: int, m: int) returns (best: int)
    requires 0 <= i < |entries| && 0 <= k < |entries| && 0 <= m < |entries| && SameSession(entries, i, k)
    ensures (best == k || best == m) && SameSession(entries, i, best)
    ensures SameSession(entries, i, m) ==> Outranks(entries, best, m)
    ensures forall j | 0 <= j < |entries| && Outranks(entries, k, j) :: Outranks(entries, best, j)
  {
    best := k;
    if SameSession(entries, i, m) && !Outranks(entries, k, m) {
      best := m;
      if Newer(entries[m], entries[k]) { NewerAsymmetric(entries[m], entries[k]); }
      forall j | 0 <= j < |entries| && Outranks(entries, k, j) ensures Outranks(entries, m, j) {
        OutranksTransitive(entries, m, k, j);
      }
    }
    if best == m && best != k {
      BeforeIrreflexive(entries[m].key.sessionId);
    }
  }

  /** Every component keeps exactly one entry, and no entry of the component is newer than it. */
  lemma OneSurvivorPerSession(entries: seq<Entry>, i: int)
    requires 0 <= i < |entries|
    ensures exists k :: IsPrimary(entries, k) && SameSession(entries, i, k)
    ensures forall k, m |
              && IsPrimary(entries, k) && SameSession(entries, i, k)
              && IsPrimary(entries, m) && SameSession(entries, i, m) :: k == m
    ensures forall k, j |
              IsPrimary(entries, k) && 0 <= j < |entries| && SameSession(entries, i, k) && SameSession(entries, i, j) ::
              !Newer(entries[j], entries[k])
  {
    var keys := AllBoundaryKeys(entries);
    var best := BestOf(entries, i);
    forall j | 0 <= j < |entries| && SameSession(entries, best, j) ensures Outranks(entries, best, j) {
      ConnectedTransitive(keys, i, best, j);
    }
    assert IsPrimary(entries, best);
    forall k, j |
      IsPrimary(entries, k) && 0 <= j < |entries| && SameSession(entries, i, k) && SameSession(entries, i, j)
      ensures Outranks(entries, k, j) && !Newer(entries[j], entries[k])
    {
      ConnectedSymmetric(keys, i, k);
      ConnectedTransitive(keys, k, i, j);
      if Newer(entries[k], entries[j]) { NewerAsymmetric(entries[k], entries[j]); }
    }
    forall k, m |
      IsPrimary(entries, k) && IsPrimary(entries, m) && SameSession(entries, i, k) && SameSession(entries, i, m)
      ensures k == m
    {
      OutranksAntisymmetric(entries, k, m);
    }
  }

  /** With distinct keys, deleting the hidden keys deletes no visible entry's key. */
  lemma VisibleKeysStay(entries: seq<Entry>, i: int)
    requires forall a, b | 0 <= a < b < |entries| :: entries[a].key != entries[b].key
    requires 0 <= i < |entries|
    ensures IsPrimary(entries, i) <==> entries[i].key !in HiddenKeys(entries, |entries|)
  {
    if IsPrimary(entries, i) {
      forall j | 0 <= j < |entries| && !IsPrimary(entries, j) ensures entries[j].key != entries[i].key {
        assert j < i || i < j;
      }
    }
  }

  // ---- What the visible list holds ----

  /** Two transcripts of one project carry the same boundary id. */
  ghost predicate SharesBoundary(a: Entry, b: Entry) {
    && a.key.projectKey == b.key.projectKey
    && exists s, t :: s in a.compactBoundaryIds && t in b.compactBoundaryIds && Trim(s) == Trim(t) && Trim(s) != ""
  }

  lemma LinkedIff(entries: seq<Entry>, i: int, j: int)
    requires 0 <= i < |entries| && 0 <= j < |entries|
    ensures Linked(AllBoundaryKeys(entries), i, j) <==> SharesBoundary(entries[i], entries[j])
  {
    var keys := AllBoundaryKeys(entries);
    if SharesBoundary(entries[i], entries[j]) {
      var s, t :|
        s in entries[i].compactBoundaryIds && t in entries[j].compactBoundaryIds && Trim(s) == Trim(t) && Trim(s) != "";
      assert BoundaryKey(entries[i].key.projectKey, Trim(s)) in keys[i];
      assert BoundaryKey(entries[i].key.projectKey, Trim(s)) in keys[j];
    }
  }

  ghost function Primaries(entries: seq<Entry>): int -> bool {
    i => IsPrimary(entries, i)
  }

  lemma {:induction false} KeptIsPicked(entries: seq<Entry>, n: nat)
    requires n <= |entries|
    ensures Kept(entries, n) == PickedBy(entries, Primaries(entries), n)
  {
    if n > 0 { KeptIsPicked(entries, n - 1); }
  }

  /** The visible list is the representatives, each at its place and nothing else. */
  lemma SurvivorPositions(entries: seq<Entry>) returns (at: seq<int>)
    ensures PicksOut(entries, Survivors(entries), at)
    ensures forall k | 0 <= k < |at| :: IsPrimary(entries, at[k])
    ensures forall i | IsPrimary(entries, i) :: i in at
  {
    var keep, n := Primaries(entries), |entries|;
    at := PlacesOf(keep, n);
    KeptIsPicked(entries, n);
    PickedPlaces(entries, keep, n);
    PlacesBelow(keep, n);
    forall k | 0 <= k < |at| ensures IsPrimary(entries, at[k]) { assert keep(at[k]); }
    forall i | IsPrimary(entries, i) ensures i in at {
      assert keep(i);
      var k := PlaceOf(keep, n, i);
    }
  }

  /** Each component has one place in the visible list, with its newest entry by time and then session id. */
  lemma EachSessionListedOnce(entries: seq<Entry>, i: int) returns (at: seq<int>, k: int)
    requires 0 <= i < |entries|
    ensures PicksOut(entries, Survivors(entries), at) && 0 <= k < |at|
    ensures forall m | 0 <= m < |at| :: SameSession(entries, i, at[m]) <==> m == k
    ensures forall j | 0 <= j < |entries| && SameSession(entries, i, j) ::
              var e, shown := entries[j], Survivors(entries)[k];
              e.updatedAt < shown.updatedAt
              || (e.updatedAt == shown.updatedAt && !Before(shown.key.sessionId, e.key.sessionId))
  {
    at := SurvivorPositions(entries);
    OneSurvivorPerSession(entries, i);
    var p :| IsPrimary(entries, p) && SameSession(entries, i, p);
    k :| 0 <= k < |at| && at[k] == p;
    forall m | 0 <= m < |at| ensures SameSession(entries, i, at[m]) <==> m == k {
      assert IsPrimary(entries, at[m]);
      PlaceIsUnique(entries, Survivors(entries), at, k, m);
    }
  }
}
