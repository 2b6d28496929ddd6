/**
 * The catalog snapshot under construction: the key map and the sorted list the lineage filters shrink
 * in place.
 */
module SessionCatalog {
  import opened Options
  import opened Text
  import opened UnionFind
  import opened Lineage
  import opened ForkLineage

  class Snapshot {
    var byKey: map<SessionKey, Entry>
    var sorted: seq<Entry>

    constructor (byKey: map<SessionKey, Entry>, sorted: seq<Entry>)
      ensures this.byKey == byKey && this.sorted == sorted
    {
      this.byKey, this.sorted := byKey, sorted;
    }

    /** Collapses the transcripts around each compaction into one entry per component. */
    method HideCompactContinuationParents()
      modifies this
      ensures sorted == Survivors(old(sorted))
      ensures byKey == old(byKey) - HiddenKeys(old(sorted), |old(sorted)|)
    {
      var parent, rep, height := JoinByBoundary(sorted);
      var primaryByRoot := ChoosePrimaries(sorted, parent, rep, height);
      var hidden: set<int>;
      hidden, byKey := DeleteSecondaries(byKey, sorted, primaryByRoot, parent, rep, height);
      DropHidden(hidden);
    }

    /** Keeps one entry of every fork group. */
    method HideForkChildren()
      modifies this
      ensures sorted == ForkSurvivors(old(sorted))
      ensures byKey == old(byKey) - ForkHiddenKeys(old(sorted))
    {
      var groups := GroupForks(sorted);
      var hidden, keys := ForkChildren(sorted, groups);
      byKey := byKey - keys;
      NotHiddenIsForkKept(sorted, hidden, |sorted|);
      sorted := KeepOthers(sorted, hidden);
    }

    /** The lineage part of building a snapshot: forks first, compaction parents after. */
    method FoldLineage()
      modifies this
      ensures sorted == Survivors(ForkSurvivors(old(sorted)))
      ensures byKey == old(byKey) - ForkHiddenKeys(old(sorted))
                       - HiddenKeys(ForkSurvivors(old(sorted)), |ForkSurvivors(old(sorted))|)
    {
      HideForkChildren();
      HideCompactContinuationParents();
    }

    method DropHidden(hidden: set<int>)
      requires Separates(hidden, sorted, |sorted|)
      modifies this`sorted
      ensures sorted == Survivors(old(sorted))
    {
      if hidden == {} {
        KeepAll(sorted, |sorted|);
        return;
      }
      var result: seq<Entry> := [];
      for index := 0 to |sorted|
        invariant sorted == old(sorted) && result == Kept(sorted, index)
      {
        if index !in hidden {
          result := result + [sorted[index]];
        }
      }
      sorted := result;
    }
  }

  ghost predicate GroupsAre(groups: map<ForkKey, seq<int>>, entries: seq<Entry>, n: nat)
    requires n <= |entries|
  {
    && (forall key | key in groups :: groups[key] == GroupOf(entries, key, n) && groups[key] != [])
    && (forall i | 0 <= i < n && Grouped(entries[i]) :: ForkKeyOf(entries[i]) in groups)
  }

  lemma GroupOfOutsider(entries: seq<Entry>, key: ForkKey, n: nat)
    requires n <= |entries| && forall i | 0 <= i < n :: !InGroup(entries, key, i)
    ensures GroupOf(entries, key, n) == []
  {
  }

  function AddToGroup(groups: map<ForkKey, seq<int>>, key: ForkKey, i: int): map<ForkKey, seq<int>> {
    groups[key := GetOr(groups, key, []) + [i]]
  }

  lemma GroupGrows(groups: map<ForkKey, seq<int>>, entries: seq<Entry>, i: nat, key: ForkKey)
    requires i < |entries| && GroupsAre(groups, entries, i)
    ensures GroupOf(entries, key, i + 1) ==
            if InGroup(entries, key, i) then GetOr(groups, key, []) + [i] else GroupOf(entries, key, i)
  {
    if key !in groups { GroupOfOutsider(entries, key, i); }
  }

  /** Entry i joins its own group and no other. */
  lemma GroupsGrow(groups: map<ForkKey, seq<int>>, entries: seq<Entry>, i: nat)
    requires i < |entries| && GroupsAre(groups, entries, i)
    ensures GroupsAre(if Grouped(entries[i]) then AddToGroup(groups, ForkKeyOf(entries[i]), i) else groups,
                      entries, i + 1)
  {
    var after := if Grouped(entries[i]) then AddToGroup(groups, ForkKeyOf(entries[i]), i) else groups;
    forall key | key in after ensures after[key] == GroupOf(entries, key, i + 1) && after[key] != [] {
      GroupGrows(groups, entries, i, key);
    }
  }

  method GroupForks(entries: seq<Entry>) returns (groups: map<ForkKey, seq<int>>)
    ensures GroupsAre(groups, entries, |entries|)
  {
    groups := map[];
    for i := 0 to |entries|
      invariant GroupsAre(groups, entries, i)
    {
      GroupsGrow(groups, entries, i);
      if !Grouped(entries[i]) {
        continue;
      }
      var key := ForkKeyOf(entries[i]);
      if key in groups {
        groups := groups[key := groups[key] + [i]];
      } else {
        assert [] + [i] == [i];
        groups := groups[key := [i]];
      }
    }
  }

  method ChooseForkPrimary(entries: seq<Entry>, idxs: seq<int>) returns (primary: int)
    requires idxs != [] && Positions(entries, idxs)
    ensures primary == ForkPrimary(entries, idxs)
  {
    primary := idxs[0];
    if |idxs| > 1 && entries[idxs[0]].updatedAt == entries[idxs[1]].updatedAt {
      assert idxs[..1] == [idxs[0]];
      for n := 1 to |idxs|
        invariant primary == LargestId(entries, idxs[..n])
      {
        assert idxs[..n + 1][..n] == idxs[..n];
        if Before(entries[primary].key.sessionId, entries[idxs[n]].key.sessionId) {
          primary := idxs[n];
        }
      }
      assert idxs[..|idxs|] == idxs;
    }
  }

  /** What the groups processed so far hide: their members other than the primary. */
  ghost predicate ForksHidden(entries: seq<Entry>, groups: map<ForkKey, seq<int>>, todo: set<ForkKey>,
                              hidden: set<int>, keys: set<SessionKey>)
  {
    && (forall i :: i in hidden <==>
          0 <= i < |entries| && Grouped(entries[i]) && ForkKeyOf(entries[i]) in groups.Keys - todo
          && !KeptByFork(entries, i))
    && keys == KeysAt(entries, hidden)
  }

  function KeysAt(entries: seq<Entry>, positions: set<int>): set<SessionKey> {
    set i | i in positions && 0 <= i < |entries| :: entries[i].key
  }

  function NotHidden(entries: seq<Entry>, hidden: set<int>, n: nat): seq<Entry>
    requires n <= |entries|
  {
    if n == 0 then []
    else NotHidden(entries, hidden, n - 1) + if n - 1 in hidden then [] else [entries[n - 1]]
  }

  lemma {:induction false} NotHiddenIsForkKept(entries: seq<Entry>, hidden: set<int>, n: nat)
    requires n <= |entries| && forall i: nat | i < n :: i in hidden <==> !KeptByFork(entries, i)
    ensures NotHidden(entries, hidden, n) == ForkKept(entries, n)
  {
    if n > 0 {
      NotHiddenIsForkKept(entries, hidden, n - 1);
      assert n - 1 in hidden <==> !KeptByFork(entries, n - 1);
    }
  }

  /** The entries not hidden, in their order. */
  method KeepOthers(entries: seq<Entry>, hidden: set<int>) returns (kept: seq<Entry>)
    ensures kept == NotHidden(entries, hidden, |entries|)
  {
    kept := [];
    for index := 0 to |entries|
      invariant kept == NotHidden(entries, hidden, index)
    {
      if index !in hidden {
        kept := kept + [entries[index]];
      }
    }
  }

  method ForkChildren(entries: seq<Entry>, groups: map<ForkKey, seq<int>>)
    returns (hidden: set<int>, keys: set<SessionKey>)
    requires GroupsAre(groups, entries, |entries|)
    ensures forall i :: i in hidden <==> 0 <= i < |entries| && !KeptByFork(entries, i)
    ensures keys == ForkHiddenKeys(entries)
  {
    hidden, keys := {}, {};
    assert KeysAt(entries, {}) == {};
    var todo := groups.Keys;
    while todo != {}
      invariant todo <= groups.Keys && ForksHidden(entries, groups, todo, hidden, keys)
      decreases todo
    {
      var key :| key in todo;
      todo := todo - {key};
      hidden, keys := HideGroup(entries, key, groups[key], hidden, keys);
    }
  }

  /** The first n members of a group without its primary. */
  function Others(idxs: seq<int>, primary: int, n: nat): set<int>
    requires n <= |idxs|
  {
    if n == 0 then {} else Others(idxs, primary, n - 1) + if idxs[n - 1] == primary then {} else {idxs[n - 1]}
  }

  lemma {:induction false} OthersMembers(idxs: seq<int>, primary: int, n: nat)
    requires n <= |idxs|
    ensures forall i :: i in Others(idxs, primary, n) <==> i != primary && exists k :: 0 <= k < n && idxs[k] == i
  {
    if n > 0 { OthersMembers(idxs, primary, n - 1); }
  }

  lemma KeysAtMore(entries: seq<Entry>, positions: set<int>, i: int)
    requires 0 <= i < |entries|
    ensures KeysAt(entries, positions + {i}) == KeysAt(entries, positions) + {entries[i].key}
  {
  }

  method HideOthers(entries: seq<Entry>, idxs: seq<int>, primary: int, hidden: set<int>, keys: set<SessionKey>)
    returns (hidden': set<int>, keys': set<SessionKey>)
    requires Positions(entries, idxs) && keys == KeysAt(entries, hidden)
    ensures hidden' == hidden + Others(idxs, primary, |idxs|) && keys' == KeysAt(entries, hidden')
  {
    hidden', keys' := hidden, keys;
    for n := 0 to |idxs|
      invariant hidden' == hidden + Others(idxs, primary, n) && keys' == KeysAt(entries, hidden')
    {
      if idxs[n] != primary {
        KeysAtMore(entries, hidden', idxs[n]);
        hidden' := hidden' + {idxs[n]};
        keys' := keys' + {entries[idxs[n]].key};
      }
    }
  }

  method HideGroup(entries: seq<Entry>, key: ForkKey, idxs: seq<int>, hidden: set<int>, keys: set<SessionKey>)
    returns (hidden': set<int>, keys': set<SessionKey>)
    requires idxs == WholeGroup(entries, key) && idxs != [] && keys == KeysAt(entries, hidden)
    ensures forall i :: i in hidden' <==> i in hidden || (InGroup(entries, key, i) && !KeptByFork(entries, i))
    ensures keys' == KeysAt(entries, hidden')
  {
    var primary := ChooseForkPrimary(entries, idxs);
    hidden', keys' := HideOthers(entries, idxs, primary, hidden, keys);
    OthersMembers(idxs, primary, |idxs|);
    GroupChildren(entries, key, primary);
    assert forall i :: i in idxs <==> exists k :: 0 <= k < |idxs| && idxs[k] == i;
  }

  lemma GroupChildren(entries: seq<Entry>, key: ForkKey, primary: int)
    requires WholeGroup(entries, key) != [] && primary == ForkPrimary(entries, WholeGroup(entries, key))
    ensures forall i ::
              i in WholeGroup(entries, key) && i != primary <==> InGroup(entries, key, i) && !KeptByFork(entries, i)
  {
  }

  method DeleteSecondaries(byKey: map<SessionKey, Entry>, entries: seq<Entry>, primaryByRoot: map<int, int>,
                           parent: array<int>, ghost rep: seq<int>, ghost height: seq<nat>)
    returns (hidden: set<int>, byKey': map<SessionKey, Entry>)
    requires parent.Length == |entries| && Forest(parent[..], rep, height)
    requires forall i | 0 <= i < |entries| ::
               rep[i] in primaryByRoot && (primaryByRoot[rep[i]] == i <==> IsPrimary(entries, i))
    modifies parent
    ensures Separates(hidden, entries, |entries|)
    ensures byKey' == byKey - HiddenKeys(entries, |entries|)
  {
    hidden, byKey' := {}, byKey;
    for index := 0 to |entries|
      invariant Forest(parent[..], rep, height)
      invariant Separates(hidden, entries, index)
      invariant byKey' == byKey - HiddenKeys(entries, index)
    {
      var root := Find(parent, index, rep, height);
      HideNext(hidden, entries, index, byKey);
      if primaryByRoot[root] != index {
        hidden := hidden + {index};
        byKey' := byKey' - {entries[index].key};
      }
    }
  }

  /** `hidden` holds exactly the entries among the first n that do not stand for their component. */
  ghost predicate Separates(hidden: set<int>, entries: seq<Entry>, n: int) {
    forall i :: i in hidden <==> 0 <= i < n <= |entries| && !IsPrimary(entries, i)
  }

  lemma HideNext(hidden: set<int>, entries: seq<Entry>, n: nat, byKey: map<SessionKey, Entry>)
    requires n < |entries| && Separates(hidden, entries, n)
    ensures Separates(if IsPrimary(entries, n) then hidden else hidden + {n}, entries, n + 1)
    ensures byKey - HiddenKeys(entries, n + 1) ==
            if IsPrimary(entries, n) then byKey - HiddenKeys(entries, n)
            else byKey - HiddenKeys(entries, n) - {entries[n].key}
  {
    assert HiddenKeys(entries, n + 1) ==
           HiddenKeys(entries, n) + if IsPrimary(entries, n) then {} else {entries[n].key};
  }

  lemma {:induction false} KeepAll(entries: seq<Entry>, n: nat)
    requires n <= |entries| && forall i | 0 <= i < n :: IsPrimary(entries, i)
    ensures Kept(entries, n) == entries[..n]
  {
    if n > 0 {
      KeepAll(entries, n - 1);
      assert entries[..n] == entries[..n - 1] + [entries[n - 1]];
    }
  }

  /** The keys recorded while the first `done` ids of entry `index` have been read. */
  ghost predicate Recorded(entries: seq<Entry>, keys: seq<set<BoundaryKey>>, index: int, done: int) {
    && 0 <= index <= |entries| == |keys|
    && (forall i | 0 <= i < index :: keys[i] == BoundaryKeys(entries[i]))
    && (forall i | index < i < |entries| :: keys[i] == {})
    && (index < |entries| ==>
          0 <= done <= |entries[index].compactBoundaryIds|
          && keys[index] == KeysOf(entries[index].key.projectKey, entries[index].compactBoundaryIds[..done]))
  }

  /** `first` knows exactly the recorded keys, each with an entry that carries it. */
  ghost predicate FirstCarriers(keys: seq<set<BoundaryKey>>, first: map<BoundaryKey, int>) {
    && (forall key | key in first :: 0 <= first[key] < |keys| && key in keys[first[key]])
    && (forall i, key | 0 <= i < |keys| && key in keys[i] :: key in first)
  }

  lemma KeysOfNext(projectKey: string, ids: seq<string>, n: nat)
    requires n < |ids|
    ensures KeysOf(projectKey, ids[..n + 1]) ==
            KeysOf(projectKey, ids[..n]) + if Trim(ids[n]) == "" then {} else {BoundaryKey(projectKey, Trim(ids[n]))}
  {
    assert ids[..n + 1] == ids[..n] + [ids[n]];
  }

  /** What the joining pass maintains: roots separate exactly the components of the recorded keys. */
  ghost predicate Joined(keys: seq<set<BoundaryKey>>, rep: seq<int>, first: map<BoundaryKey, int>) {
    RootsComplete(keys, rep) && RootsSound(keys, rep) && FirstCarriers(keys, first)
  }

  lemma SharedKeyJoined(keys: seq<set<BoundaryKey>>, rep: seq<int>, merged: seq<int>, first: map<BoundaryKey, int>,
                        index: int, key: BoundaryKey)
    requires Joined(keys, rep, first) && 0 <= index < |keys| && key in first && merged == Merge(rep, first[key], index)
    ensures Joined(keys[index := keys[index] + {key}], merged, first)
  {
    RecordSharedKey(keys, rep, merged, first[key], index, key);
  }

  lemma FreshKeyJoined(keys: seq<set<BoundaryKey>>, rep: seq<int>, first: map<BoundaryKey, int>, index: int,
                       key: BoundaryKey)
    requires Joined(keys, rep, first) && 0 <= index < |keys| && key !in first
    ensures Joined(keys[index := keys[index] + {key}], rep, first[key := index])
  {
    RecordFreshKey(keys, rep, index, key);
  }

  method JoinKey(parent: array<int>, first: map<BoundaryKey, int>, index: int, key: BoundaryKey,
                 ghost keys: seq<set<BoundaryKey>>, ghost rep: seq<int>, ghost height: seq<nat>)
    returns (first': map<BoundaryKey, int>, ghost rep': seq<int>, ghost height': seq<nat>)
    requires Forest(parent[..], rep, height) && Joined(keys, rep, first) && 0 <= index < parent.Length == |keys|
    modifies parent
    ensures Forest(parent[..], rep', height')
    ensures Joined(keys[index := keys[index] + {key}], rep', first')
  {
    first' := first;
    if key in first {
      rep', height' := Union(parent, first[key], index, rep, height);
      SharedKeyJoined(keys, rep, rep', first, index, key);
    } else {
      rep', height' := rep, height;
      first' := first[key := index];
      FreshKeyJoined(keys, rep, first, index, key);
    }
  }

  method JoinEntry(parent: array<int>, first: map<BoundaryKey, int>, entries: seq<Entry>, index: int,
                   ghost keys: seq<set<BoundaryKey>>, ghost rep: seq<int>, ghost height: seq<nat>)
    returns (first': map<BoundaryKey, int>, ghost keys': seq<set<BoundaryKey>>, ghost rep': seq<int>,
             ghost height': seq<nat>)
    requires 0 <= index < parent.Length == |entries|
    requires Forest(parent[..], rep, height) && Joined(keys, rep, first) && Recorded(entries, keys, index, 0)
    modifies parent
    ensures Forest(parent[..], rep', height') && Joined(keys', rep', first') && Recorded(entries, keys', index + 1, 0)
  {
    first', keys', rep', height' := first, keys, rep, height;
    var ids := entries[index].compactBoundaryIds;
    for n := 0 to |ids|
      invariant Forest(parent[..], rep', height') && Joined(keys', rep', first') && Recorded(entries, keys', index, n)
    {
      KeysOfNext(entries[index].key.projectKey, ids, n);
      var boundaryId := Trim(ids[n]);
      if boundaryId == "" {
        continue;
      }
      var key := BoundaryKey(entries[index].key.projectKey, boundaryId);
      first', rep', height' := JoinKey(parent, first', index, key, keys', rep', height');
      keys' := keys'[index := keys'[index] + {key}];
    }
    assert ids[..|ids|] == ids;
  }

  lemma NoKeysYet(entries: seq<Entry>, keys: seq<set<BoundaryKey>>, rep: seq<int>)
    requires |keys| == |rep| == |entries| && forall i | 0 <= i < |keys| :: keys[i] == {} && rep[i] == i
    ensures Joined(keys, rep, map[]) && Recorded(entries, keys, 0, 0)
  {
    forall i | 0 <= i < |keys| ensures Connected(keys, i, i) { ConnectedReflexive(keys, i); }
  }

  /** One pass over every boundary id, joining each entry with the first carrier of the same key. */
  method JoinByBoundary(entries: seq<Entry>)
    returns (parent: array<int>, ghost rep: seq<int>, ghost height: seq<nat>)
    ensures fresh(parent) && parent.Length == |entries| && Forest(parent[..], rep, height)
    ensures RootsComplete(AllBoundaryKeys(entries), rep) && RootsSound(AllBoundaryKeys(entries), rep)
  {
    parent := new int[|entries|](i => i);
    rep := seq(|entries|, i => i);
    height := seq(|entries|, i => 0);
    ghost var keys: seq<set<BoundaryKey>> := seq(|entries|, i => {});
    NoKeysYet(entries, keys, rep);
    var firstByBoundary: map<BoundaryKey, int> := map[];
    for index := 0 to |entries|
      invariant Forest(parent[..], rep, height)
      invariant Joined(keys, rep, firstByBoundary) && Recorded(entries, keys, index, 0)
    {
      firstByBoundary, keys, rep, height := JoinEntry(parent, firstByBoundary, entries, index, keys, rep, height);
    }
    assert keys == AllBoundaryKeys(entries);
  }

  lemma PrimaryStep(entries: seq<Entry>, p: int, index: int)
    requires 0 <= p < index < |entries|
    ensures Newer(entries[index], entries[p]) ==>
              forall j | 0 <= j < index && Outranks(entries, p, j) :: Outranks(entries, index, j)
    ensures !Newer(entries[index], entries[p]) ==> Outranks(entries, p, index)
  {
    if Newer(entries[index], entries[p]) {
      forall j | 0 <= j < index && Outranks(entries, p, j) ensures Outranks(entries, index, j) {
        OutranksTransitive(entries, index, p, j);
      }
    }
  }

  /** For every root met among the first n entries, the best entry met under it. */
  ghost predicate Leaders(entries: seq<Entry>, rep: seq<int>, n: int, leader: map<int, int>) {
    && 0 <= n <= |entries| == |rep|
    && (forall i | 0 <= i < n :: rep[i] in leader)
    && (forall r | r in leader :: 0 <= leader[r] < n && rep[leader[r]] == r)
    && (forall j | 0 <= j < n :: Outranks(entries, leader[rep[j]], j))
  }

  method Consider(entries: seq<Entry>, index: int, root: int, leader: map<int, int>, ghost rep: seq<int>)
    returns (leader': map<int, int>)
    requires 0 <= index < |entries| && Leaders(entries, rep, index, leader) && root == rep[index]
    ensures Leaders(entries, rep, index + 1, leader')
  {
    leader' := leader;
    BeforeIrreflexive(entries[index].key.sessionId);
    if root !in leader {
      leader' := leader[root := index];
    } else {
      var primary := leader[root];
      PrimaryStep(entries, primary, index);
      if Newer(entries[index], entries[primary]) {
        leader' := leader[root := index];
      }
    }
  }

  method ChoosePrimaries(entries: seq<Entry>, parent: array<int>, ghost rep: seq<int>, ghost height: seq<nat>)
    returns (primaryByRoot: map<int, int>)
    requires parent.Length == |entries| && Forest(parent[..], rep, height)
    requires RootsComplete(AllBoundaryKeys(entries), rep) && RootsSound(AllBoundaryKeys(entries), rep)
    modifies parent
    ensures Forest(parent[..], rep, height)
    ensures forall i | 0 <= i < |entries| ::
              rep[i] in primaryByRoot && (primaryByRoot[rep[i]] == i <==> IsPrimary(entries, i))
  {
    primaryByRoot := map[];
    for index := 0 to |entries|
      invariant Forest(parent[..], rep, height) && Leaders(entries, rep, index, primaryByRoot)
    {
      var root := Find(parent, index, rep, height);
      primaryByRoot := Consider(entries, index, root, primaryByRoot, rep);
    }
    LeadersArePrimaries(entries, rep, primaryByRoot);
  }

  lemma LeadersArePrimaries(entries: seq<Entry>, rep: seq<int>, leader: map<int, int>)
    requires Leaders(entries, rep, |entries|, leader)
    requires RootsComplete(AllBoundaryKeys(entries), rep) && RootsSound(AllBoundaryKeys(entries), rep)
    ensures forall i | 0 <= i < |entries| :: leader[rep[i]] == i <==> IsPrimary(entries, i)
  {
    forall i | 0 <= i < |entries| ensures leader[rep[i]] == i <==> IsPrimary(entries, i) {
      forall j | 0 <= j < |entries| ensures rep[i] == rep[j] <==> SameSession(entries, i, j) {
        RootsAreComponents(AllBoundaryKeys(entries), rep, i, j);
      }
      assert rep[i] in leader && 0 <= leader[rep[i]] < |entries| && rep[leader[rep[i]]] == rep[i];
      if IsPrimary(entries, i) {
        OutranksAntisymmetric(entries, i, leader[rep[i]]);
      }
    }
  }
}
