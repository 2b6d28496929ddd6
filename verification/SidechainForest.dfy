/**
 * Subagents nested under their parents, from nodes whose parent ids may run in circles or nowhere: building
 * ends, no agent comes out twice, and exactly those appear that hang from an anchored root.
 */
module SidechainForest {
  import opened Options
  import opened Sequences

  const MAX_DEPTH: nat := 8

  datatype Node = Node(parentAgentId: string, toolUseId: string, agentType: string, spawnDepth: int,
                       blocks: seq<string>, status: string)

  type Nodes = map<string, Node>

  datatype Part =
    | Content(text: string)
    | Subagent(agentId: string, node: Node, blocks: seq<Part>, diagnostic: string)

  predicate IsRoot(nodes: Nodes, a: string) {
    a in nodes && nodes[a].spawnDepth <= 1
  }

  predicate IsChild(nodes: Nodes, a: string, parent: string) {
    a in nodes && nodes[a].spawnDepth > 1 && nodes[a].parentAgentId == parent && parent != ""
  }

  /** A way down from a root to an agent, each a child of the one before. */
  ghost predicate IsPath(nodes: Nodes, path: seq<string>) {
    && path != [] && IsRoot(nodes, path[0])
    && forall i: nat | 0 < i < |path| :: IsChild(nodes, path[i], path[i - 1])
  }

  lemma {:induction false} PathIsDistinct(nodes: Nodes, path: seq<string>, i: nat, j: nat)
    requires IsPath(nodes, path) && i < j < |path|
    ensures path[i] != path[j]
    decreases i
  {
    assert IsChild(nodes, path[j], path[j - 1]);
    if i > 0 {
      assert IsChild(nodes, path[i], path[i - 1]);
      PathIsDistinct(nodes, path, i - 1, j - 1);
    }
  }

  lemma PathFits(nodes: Nodes, path: seq<string>)
    requires IsPath(nodes, path)
    ensures |path| <= |nodes| && forall i | 0 <= i < |path| :: path[i] in nodes
  {
    forall i: nat, j: nat | i < j < |path| ensures path[i] != path[j] {
      PathIsDistinct(nodes, path, i, j);
    }
    forall i: nat | i < |path| ensures path[i] in nodes {
      assert i == 0 || IsChild(nodes, path[i], path[i - 1]);
    }
    DistinctFit(path, nodes.Keys);
  }

  lemma {:induction false} DistinctFit(list: seq<string>, keys: set<string>)
    requires forall i, j | 0 <= i < j < |list| :: list[i] != list[j]
    requires forall i | 0 <= i < |list| :: list[i] in keys
    ensures |list| <= |keys|
  {
    if list != [] {
      DistinctFit(list[1..], keys - {list[0]});
    }
  }

  lemma PathExtends(nodes: Nodes, path: seq<string>, child: string)
    requires IsPath(nodes, path) && IsChild(nodes, child, path[|path| - 1])
    ensures IsPath(nodes, path + [child])
  {
    var longer := path + [child];
    forall i: nat | 0 < i < |longer| ensures IsChild(nodes, longer[i], longer[i - 1]) {
      if i < |path| { assert IsChild(nodes, path[i], path[i - 1]); }
    }
  }

  predicate AllChildren(nodes: Nodes, kids: seq<string>, parent: string) {
    forall i | 0 <= i < |kids| :: IsChild(nodes, kids[i], parent)
  }

  /** The agents in the order given whose parent it is. */
  function Children(nodes: Nodes, order: seq<string>, parent: string): (kids: seq<string>)
    ensures AllChildren(nodes, kids, parent)
    ensures forall k :: k in kids <==> k in order && IsChild(nodes, k, parent)
  {
    if order == [] then []
    else (if IsChild(nodes, order[0], parent) then [order[0]] else []) + Children(nodes, order[1..], parent)
  }

  function Contents(blocks: seq<string>): seq<Part> {
    seq(|blocks|, i requires 0 <= i < |blocks| => Content(blocks[i]))
  }

  /** The agent's part with its children's nested behind its own blocks; the path down to it is for termination. */
  function Build(nodes: Nodes, order: seq<string>, a: string, ghost path: seq<string>): Part
    requires IsPath(nodes, path) && path[|path| - 1] == a
    decreases |nodes| - |path|, 1, 0
  {
    PathFits(nodes, path);
    var kids := BuildAll(nodes, order, Children(nodes, order, a), path);
    Subagent(a, nodes[a], Contents(nodes[a].blocks) + kids, Diagnose(nodes, a))
  }

  function BuildAll(nodes: Nodes, order: seq<string>, kids: seq<string>, ghost path: seq<string>): seq<Part>
    requires IsPath(nodes, path) && AllChildren(nodes, kids, path[|path| - 1])
    decreases |nodes| - |path|, 0, |kids|
  {
    PathFits(nodes, path);
    if kids == [] then []
    else
      PathExtends(nodes, path, kids[0]);
      PathFits(nodes, path + [kids[0]]);
      [Build(nodes, order, kids[0], path + [kids[0]])] + BuildAll(nodes, order, kids[1..], path)
  }

  /** The anchored roots in order: those whose tool use stands in the main transcript. */
  function AnchoredRoots(nodes: Nodes, order: seq<string>, anchors: set<string>): (roots: seq<string>)
    ensures forall a :: a in roots <==> a in order && IsRoot(nodes, a) && nodes[a].toolUseId in anchors
  {
    if order == [] then []
    else
      (if IsRoot(nodes, order[0]) && nodes[order[0]].toolUseId in anchors then [order[0]] else [])
      + AnchoredRoots(nodes, order[1..], anchors)
  }

  function BuildRoots(nodes: Nodes, order: seq<string>, roots: seq<string>): seq<Part>
    requires forall a | a in roots :: IsRoot(nodes, a)
  {
    if roots == [] then []
    else [Build(nodes, order, roots[0], [roots[0]])] + BuildRoots(nodes, order, roots[1..])
  }

  /** The top-level parts, for nodes that come in the given order. */
  function Assemble(nodes: Nodes, order: seq<string>, anchors: set<string>): seq<Part> {
    BuildRoots(nodes, order, AnchoredRoots(nodes, order, anchors))
  }

  // ---- Who appears ----

  function AgentsOf(p: Part): seq<string> {
    match p
    case Content(_) => []
    case Subagent(a, _, blocks, _) => [a] + AgentsOfAll(blocks)
  }

  function AgentsOfAll(ps: seq<Part>): seq<string> {
    if ps == [] then [] else AgentsOf(ps[0]) + AgentsOfAll(ps[1..])
  }

  lemma AgentsOfCons(p: Part, ps: seq<Part>)
    ensures AgentsOfAll([p] + ps) == AgentsOf(p) + AgentsOfAll(ps)
  {
    assert ([p] + ps)[0] == p && ([p] + ps)[1..] == ps;
  }

  lemma {:induction false} AgentsOfAppend(a: seq<Part>, b: seq<Part>)
    ensures AgentsOfAll(a + b) == AgentsOfAll(a) + AgentsOfAll(b)
  {
    if a == [] {
      assert a + b == b && AgentsOfAll(a) + AgentsOfAll(b) == AgentsOfAll(b);
    } else {
      var rest := a[1..];
      AgentsOfAppend(rest, b);
      assert a == [a[0]] + rest && a + b == [a[0]] + (rest + b);
      AgentsOfCons(a[0], rest + b);
      AgentsOfCons(a[0], rest);
      Reassociate(AgentsOf(a[0]), AgentsOfAll(rest), AgentsOfAll(b));
    }
  }

  lemma {:induction false} ContentsHoldNone(blocks: seq<string>)
    ensures AgentsOfAll(Contents(blocks)) == []
  {
    if blocks != [] {
      ContentsHoldNone(blocks[1..]);
      assert Contents(blocks)[1..] == Contents(blocks[1..]);
    }
  }

  /** Whether an agent hangs at or below the end of a path. */
  ghost predicate Below(nodes: Nodes, path: seq<string>, a: string) {
    exists q :: path <= q && IsPath(nodes, q) && q[|q| - 1] == a
  }

  /** There is one way down to an agent at most. */
  lemma {:induction false} PathIsUnique(nodes: Nodes, p: seq<string>, q: seq<string>)
    requires IsPath(nodes, p) && IsPath(nodes, q) && p[|p| - 1] == q[|q| - 1]
    ensures p == q
  {
    var m, n := |p| - 1, |q| - 1;
    assert (m > 0 ==> IsChild(nodes, p[m], p[m - 1])) && (n > 0 ==> IsChild(nodes, q[n], q[n - 1]));
    if m > 0 && n > 0 {
      PathIsPath(nodes, p, m);
      PathIsPath(nodes, q, n);
      PathIsUnique(nodes, p[..m], q[..n]);
      assert p == p[..m] + [p[m]] && q == q[..n] + [q[n]];
    }
  }

  lemma PathIsPath(nodes: Nodes, path: seq<string>, n: nat)
    requires IsPath(nodes, path) && 0 < n <= |path|
    ensures IsPath(nodes, path[..n])
  {
    forall i: nat | 0 < i < n ensures IsChild(nodes, path[..n][i], path[..n][i - 1]) {
      assert IsChild(nodes, path[i], path[i - 1]);
    }
  }

  /** Below a path means at its end, or below one of the children of its end. */
  lemma BelowSplits(nodes: Nodes, path: seq<string>, a: string)
    requires IsPath(nodes, path)
    ensures Below(nodes, path, a) <==>
            a == path[|path| - 1] || exists k :: IsChild(nodes, k, path[|path| - 1]) && Below(nodes, path + [k], a)
  {
    if Below(nodes, path, a) && a != path[|path| - 1] {
      var q :| path <= q && IsPath(nodes, q) && q[|q| - 1] == a;
      assert IsChild(nodes, q[|path|], q[|path| - 1]);
      assert path + [q[|path|]] <= q;
      assert Below(nodes, path + [q[|path|]], a);
    }
    if a == path[|path| - 1] {
      assert path <= path;
    }
    forall k | IsChild(nodes, k, path[|path| - 1]) && Below(nodes, path + [k], a) ensures Below(nodes, path, a) {
      var q :| path + [k] <= q && IsPath(nodes, q) && q[|q| - 1] == a;
      assert path <= path + [k] <= q;
    }
  }

  /** The subtrees of different children share no agent. */
  lemma SubtreesApart(nodes: Nodes, path: seq<string>, k: string, l: string, a: string)
    requires Below(nodes, path + [k], a) && Below(nodes, path + [l], a)
    ensures k == l
  {
    var p :| path + [k] <= p && IsPath(nodes, p) && p[|p| - 1] == a;
    var q :| path + [l] <= q && IsPath(nodes, q) && q[|q| - 1] == a;
    PathIsUnique(nodes, p, q);
    assert p[|path|] == k && q[|path|] == l;
  }

  lemma NoRepeatsAppend(a: seq<string>, b: seq<string>)
    requires NoRepeats(a) && NoRepeats(b) && forall x | x in a :: x !in b
    ensures NoRepeats(a + b)
  {
    forall i, j | 0 <= i < j < |a + b| ensures (a + b)[i] != (a + b)[j] {
      if i < |a| <= j { assert (a + b)[i] in a && (a + b)[j] in b; }
    }
  }

  ghost predicate Lists(list: seq<string>, nodes: Nodes) {
    NoRepeats(list) && forall a :: a in list <==> a in nodes
  }

  lemma {:induction false} ChildrenDistinct(nodes: Nodes, order: seq<string>, parent: string)
    requires NoRepeats(order)
    ensures NoRepeats(Children(nodes, order, parent))
  {
    if order != [] {
      ChildrenDistinct(nodes, order[1..], parent);
      assert order[0] !in order[1..];
    }
  }

  ghost predicate BelowOne(nodes: Nodes, path: seq<string>, kids: seq<string>, a: string) {
    exists k :: k in kids && Below(nodes, path + [k], a)
  }

  /** The list names exactly the agents below one of the children, each once. */
  ghost predicate HoldsBelow(nodes: Nodes, path: seq<string>, kids: seq<string>, list: seq<string>) {
    NoRepeats(list) && forall x :: x in list <==> BelowOne(nodes, path, kids, x)
  }

  ghost predicate HoldsAt(nodes: Nodes, path: seq<string>, list: seq<string>) {
    NoRepeats(list) && forall x :: x in list <==> Below(nodes, path, x)
  }

  /** The end of a path, and what is below its children, is what is at or below it. */
  lemma EndAndBelow(nodes: Nodes, order: seq<string>, path: seq<string>, nested: seq<string>)
    requires Lists(order, nodes) && IsPath(nodes, path)
    requires HoldsBelow(nodes, path, Children(nodes, order, path[|path| - 1]), nested)
    ensures HoldsAt(nodes, path, [path[|path| - 1]] + nested)
  {
    var a := path[|path| - 1];
    var kids := Children(nodes, order, a);
    EndIsNotBelowChild(nodes, path, kids);
    assert a !in nested;
    NoRepeatsAppend([a], nested);
    forall x ensures x in [a] + nested <==> Below(nodes, path, x) {
      BelowSplits(nodes, path, x);
      assert BelowOne(nodes, path, kids, x) <==> exists k :: IsChild(nodes, k, a) && Below(nodes, path + [k], x);
    }
  }

  /** An agent's part holds exactly the agents at or below it, each once. */
  lemma {:induction false} BuildHolds(nodes: Nodes, order: seq<string>, a: string, path: seq<string>)
    requires Lists(order, nodes) && IsPath(nodes, path) && path[|path| - 1] == a
    ensures HoldsAt(nodes, path, AgentsOf(Build(nodes, order, a, path)))
    decreases |nodes| - |path|, 1, 0
  {
    PathFits(nodes, path);
    var kids := Children(nodes, order, a);
    ChildrenDistinct(nodes, order, a);
    BuildAllHolds(nodes, order, kids, path);
    ContentsHoldNone(nodes[a].blocks);
    var own, parts := Contents(nodes[a].blocks), BuildAll(nodes, order, kids, path);
    AgentsOfAppend(own, parts);
    EndAndBelow(nodes, order, path, AgentsOfAll(parts));
    assert AgentsOfAll(own + parts) == AgentsOfAll(parts);
    assert AgentsOf(Build(nodes, order, a, path)) == [a] + AgentsOfAll(own + parts);
  }

  lemma EndIsNotBelowChild(nodes: Nodes, path: seq<string>, kids: seq<string>)
    requires IsPath(nodes, path)
    ensures forall k | k in kids :: !Below(nodes, path + [k], path[|path| - 1])
  {
    forall k | k in kids ensures !Below(nodes, path + [k], path[|path| - 1]) {
      forall q | path + [k] <= q && IsPath(nodes, q) ensures q[|q| - 1] != path[|path| - 1] {
        PathIsDistinct(nodes, q, |path| - 1, |q| - 1);
      }
    }
  }

  /** The agents of one child's subtree and those of its siblings' are together the ones below all of them. */
  lemma SubtreesJoin(nodes: Nodes, path: seq<string>, k: string, rest: seq<string>, first: seq<string>,
                     others: seq<string>)
    requires k !in rest && HoldsAt(nodes, path + [k], first) && HoldsBelow(nodes, path, rest, others)
    ensures HoldsBelow(nodes, path, [k] + rest, first + others)
  {
    forall x | x in first ensures x !in others {
      forall l | l in rest ensures !Below(nodes, path + [l], x) {
        if Below(nodes, path + [l], x) { SubtreesApart(nodes, path, k, l, x); }
      }
    }
    NoRepeatsAppend(first, others);
    forall x ensures x in first + others <==> BelowOne(nodes, path, [k] + rest, x) {
      assert forall l :: l in [k] + rest <==> l == k || l in rest;
    }
  }

  lemma {:induction false} BuildAllHolds(nodes: Nodes, order: seq<string>, kids: seq<string>, path: seq<string>)
    requires Lists(order, nodes) && NoRepeats(kids)
    requires IsPath(nodes, path) && AllChildren(nodes, kids, path[|path| - 1])
    ensures HoldsBelow(nodes, path, kids, AgentsOfAll(BuildAll(nodes, order, kids, path)))
    decreases |nodes| - |path|, 0, |kids|
  {
    PathFits(nodes, path);
    if kids != [] {
      var k, rest := kids[0], kids[1..];
      PathExtends(nodes, path, k);
      PathFits(nodes, path + [k]);
      BuildHolds(nodes, order, k, path + [k]);
      BuildAllHolds(nodes, order, rest, path);
      var part, others := Build(nodes, order, k, path + [k]), BuildAll(nodes, order, rest, path);
      AgentsOfCons(part, others);
      assert k !in rest && kids == [k] + rest;
      SubtreesJoin(nodes, path, k, rest, AgentsOf(part), AgentsOfAll(others));
      assert BuildAll(nodes, order, kids, path) == [part] + others;
    }
  }

  lemma {:induction false} BuildRootsHolds(nodes: Nodes, order: seq<string>, roots: seq<string>)
    requires Lists(order, nodes) && NoRepeats(roots) && forall a | a in roots :: IsRoot(nodes, a)
    ensures HoldsBelow(nodes, [], roots, AgentsOfAll(BuildRoots(nodes, order, roots)))
  {
    if roots != [] {
      var a, rest := roots[0], roots[1..];
      assert [] + [a] == [a];
      BuildHolds(nodes, order, a, [a]);
      BuildRootsHolds(nodes, order, rest);
      var part, others := Build(nodes, order, a, [a]), BuildRoots(nodes, order, rest);
      AgentsOfCons(part, others);
      assert a !in rest && roots == [a] + rest;
      SubtreesJoin(nodes, [], a, rest, AgentsOf(part), AgentsOfAll(others));
      assert BuildRoots(nodes, order, roots) == [part] + others;
    }
  }

  lemma {:induction false} AnchoredDistinct(nodes: Nodes, order: seq<string>, anchors: set<string>)
    requires NoRepeats(order)
    ensures NoRepeats(AnchoredRoots(nodes, order, anchors))
  {
    if order != [] {
      AnchoredDistinct(nodes, order[1..], anchors);
      assert order[0] !in order[1..];
    }
  }

  /** Whether an agent hangs from a root whose tool use is in the main transcript. */
  ghost predicate Attached(nodes: Nodes, anchors: set<string>, a: string) {
    exists q :: IsPath(nodes, q) && nodes[q[0]].toolUseId in anchors && q[|q| - 1] == a
  }

  /** Whatever the parent ids say, no agent appears twice, and exactly the attached ones appear. */
  lemma ForestHoldsAttached(nodes: Nodes, order: seq<string>, anchors: set<string>)
    requires Lists(order, nodes)
    ensures NoRepeats(AgentsOfAll(Assemble(nodes, order, anchors)))
    ensures forall a :: a in AgentsOfAll(Assemble(nodes, order, anchors)) <==> Attached(nodes, anchors, a)
  {
    var roots := AnchoredRoots(nodes, order, anchors);
    AnchoredDistinct(nodes, order, anchors);
    BuildRootsHolds(nodes, order, roots);
    forall a ensures BelowOne(nodes, [], roots, a) <==> Attached(nodes, anchors, a) {
      AttachedIsBelowRoot(nodes, order, anchors, a);
    }
  }

  lemma AttachedIsBelowRoot(nodes: Nodes, order: seq<string>, anchors: set<string>, a: string)
    requires Lists(order, nodes)
    ensures BelowOne(nodes, [], AnchoredRoots(nodes, order, anchors), a) <==> Attached(nodes, anchors, a)
  {
    var roots := AnchoredRoots(nodes, order, anchors);
    if Attached(nodes, anchors, a) {
      var q :| IsPath(nodes, q) && nodes[q[0]].toolUseId in anchors && q[|q| - 1] == a;
      assert [] + [q[0]] <= q;
      assert q[0] in roots && Below(nodes, [] + [q[0]], a);
    }
    forall r | r in roots && Below(nodes, [] + [r], a) ensures Attached(nodes, anchors, a) {
      var q :| [] + [r] <= q && IsPath(nodes, q) && q[|q| - 1] == a;
      assert q[0] == r;
    }
  }

  // ---- Where agents appear ----

  /** A part shows its agent's node, its own blocks first, and below it only parts of its children. */
  ghost predicate Nested(nodes: Nodes, p: Part)
    decreases p
  {
    p.Subagent? ==>
      && p.agentId in nodes && p.node == nodes[p.agentId] && p.diagnostic == Diagnose(nodes, p.agentId)
      && Contents(p.node.blocks) <= p.blocks
      && forall i | |p.node.blocks| <= i < |p.blocks| ::
           p.blocks[i].Subagent? && IsChild(nodes, p.blocks[i].agentId, p.agentId) && Nested(nodes, p.blocks[i])
  }

  ghost predicate NestedUnder(nodes: Nodes, parts: seq<Part>, parent: string) {
    forall i | 0 <= i < |parts| ::
      parts[i].Subagent? && IsChild(nodes, parts[i].agentId, parent) && Nested(nodes, parts[i])
  }

  lemma {:induction false} BuildNests(nodes: Nodes, order: seq<string>, a: string, path: seq<string>)
    requires IsPath(nodes, path) && path[|path| - 1] == a
    ensures Build(nodes, order, a, path).Subagent? && Build(nodes, order, a, path).agentId == a
    ensures Nested(nodes, Build(nodes, order, a, path))
    decreases |nodes| - |path|, 1, 0
  {
    PathFits(nodes, path);
    var own, kids := Contents(nodes[a].blocks), BuildAll(nodes, order, Children(nodes, order, a), path);
    BuildAllNests(nodes, order, Children(nodes, order, a), path);
    forall i | |own| <= i < |own + kids| ensures (own + kids)[i] == kids[i - |own|] {}
  }

  lemma {:induction false} BuildAllNests(nodes: Nodes, order: seq<string>, kids: seq<string>, path: seq<string>)
    requires IsPath(nodes, path) && AllChildren(nodes, kids, path[|path| - 1])
    ensures NestedUnder(nodes, BuildAll(nodes, order, kids, path), path[|path| - 1])
    decreases |nodes| - |path|, 0, |kids|
  {
    PathFits(nodes, path);
    if kids != [] {
      PathExtends(nodes, path, kids[0]);
      PathFits(nodes, path + [kids[0]]);
      BuildNests(nodes, order, kids[0], path + [kids[0]]);
      BuildAllNests(nodes, order, kids[1..], path);
    }
  }

  /** At the top stand anchored roots, and every other agent stands directly below the one it names as parent. */
  lemma ForestFollowsParents(nodes: Nodes, order: seq<string>, anchors: set<string>)
    ensures forall i | 0 <= i < |Assemble(nodes, order, anchors)| ::
              var p := Assemble(nodes, order, anchors)[i];
              p.Subagent? && IsRoot(nodes, p.agentId) && nodes[p.agentId].toolUseId in anchors && Nested(nodes, p)
  {
    RootsNest(nodes, order, AnchoredRoots(nodes, order, anchors));
  }

  lemma {:induction false} RootsNest(nodes: Nodes, order: seq<string>, roots: seq<string>)
    requires forall a | a in roots :: IsRoot(nodes, a)
    ensures |BuildRoots(nodes, order, roots)| == |roots|
    ensures forall i | 0 <= i < |roots| ::
              var p := BuildRoots(nodes, order, roots)[i]; p.Subagent? && p.agentId == roots[i] && Nested(nodes, p)
  {
    if roots != [] {
      BuildNests(nodes, order, roots[0], [roots[0]]);
      RootsNest(nodes, order, roots[1..]);
    }
  }

  // ---- Diagnostics ----

  /** Up the parents from `cur`, which is `depth` links above the start. */
  function Climb(nodes: Nodes, seen: set<string>, cur: string, depth: nat): string
    requires depth <= MAX_DEPTH
    decreases MAX_DEPTH - depth
  {
    if cur == "" then ""
    else if depth + 1 > MAX_DEPTH then "max_depth"
    else if cur in seen then "cycle"
    else if cur !in nodes then "orphan_parent"
    else Climb(nodes, seen + {cur}, nodes[cur].parentAgentId, depth + 1)
  }

  function Diagnose(nodes: Nodes, a: string): string
  {
    if a !in nodes || nodes[a].spawnDepth <= 1 then "" else Climb(nodes, {a}, nodes[a].parentAgentId, 0)
  }

  method ComputeDiagnostic(nodes: Nodes, a: string) returns (diagnostic: string)
    requires a in nodes
    ensures diagnostic == Diagnose(nodes, a)
  {
    if nodes[a].spawnDepth <= 1 {
      return "";
    }
    var seen := {a};
    var cur := nodes[a].parentAgentId;
    var depth := 0;
    while cur != ""
      invariant depth <= MAX_DEPTH && Diagnose(nodes, a) == Climb(nodes, seen, cur, depth)
      decreases MAX_DEPTH - depth
    {
      if depth + 1 > MAX_DEPTH {
        return "max_depth";
      }
      depth := depth + 1;
      if cur in seen {
        return "cycle";
      }
      if cur !in nodes {
        return "orphan_parent";
      }
      seen := seen + {cur};
      cur := nodes[cur].parentAgentId;
    }
    diagnostic := "";
  }

  function Elements(s: seq<string>): (r: set<string>)
    ensures forall a :: a in r <==> a in s
  {
    set a | a in s
  }

  lemma ElementsFrom(s: seq<string>, i: nat)
    requires i < |s|
    ensures Elements(s[i..]) == Elements(s[i + 1..]) + {s[i]}
  {
    assert s[i..] == [s[i]] + s[i + 1..];
  }

  lemma {:induction false} NotBelow(nodes: Nodes, path: seq<string>, i: nat)
    requires IsPath(nodes, path) && i < |path|
    ensures path[i] !in Elements(path[i + 1..])
  {
    if path[i] in path[i + 1..] {
      var j :| i + 1 <= j < |path| && path[j] == path[i];
      PathIsDistinct(nodes, path, i, j);
    }
  }

  lemma ClimbStep(nodes: Nodes, seen: set<string>, cur: string, depth: nat)
    requires depth < MAX_DEPTH && cur in nodes && cur != "" && cur !in seen
    ensures Climb(nodes, seen, cur, depth) == Climb(nodes, seen + {cur}, nodes[cur].parentAgentId, depth + 1)
  {
  }

  /** What the climb from `path[i]` ends with: its depth runs out on the path, or it goes on above the root. */
  function AboveRoot(nodes: Nodes, path: seq<string>, depth: nat): string
    requires |path| > 0 && path[0] in nodes
  {
    if depth > MAX_DEPTH then "max_depth" else Climb(nodes, Elements(path), nodes[path[0]].parentAgentId, depth)
  }

  /** Climbing a path from below reads its agents one by one and goes on above its root. */
  lemma {:induction false} ClimbFollowsPath(nodes: Nodes, path: seq<string>, i: nat, depth: nat)
    requires IsPath(nodes, path) && i + 1 < |path| && depth <= MAX_DEPTH && path[0] in nodes
    ensures Climb(nodes, Elements(path[i + 1..]), path[i], depth) == AboveRoot(nodes, path, depth + i + 1)
    decreases i
  {
    assert IsChild(nodes, path[i + 1], path[i]) && (i > 0 ==> IsChild(nodes, path[i], path[i - 1]));
    if depth < MAX_DEPTH {
      NotBelow(nodes, path, i);
      ElementsFrom(path, i);
      ClimbStep(nodes, Elements(path[i + 1..]), path[i], depth);
      if i > 0 {
        ClimbFollowsPath(nodes, path, i - 1, depth + 1);
      } else {
        assert path[0..] == path;
      }
    }
  }

  /** What an agent below a root is flagged for: its depth, else whatever stands above the root. */
  lemma AttachedDiagnostic(nodes: Nodes, path: seq<string>)
    requires IsPath(nodes, path)
    ensures var n := |path| - 1;
            Diagnose(nodes, path[n]) ==
            if n == 0 then ""
            else if n > 8 then "max_depth"
            else Climb(nodes, Elements(path), nodes[path[0]].parentAgentId, n)
  {
    var n := |path| - 1;
    if n > 0 {
      assert IsChild(nodes, path[n], path[n - 1]);
      assert path[n..] == [path[n]];
      assert Elements(path[n..]) == {path[n]};
      ClimbFollowsPath(nodes, path, n - 1, 0);
    }
  }

  // ---- Who appears, read off the agent itself ----

  /** The first root met on the way up from an agent, none when the way ends, leaves the nodes or turns in a circle. */
  function RootAbove(nodes: Nodes, seen: set<string>, a: string): (r: Option<string>)
    ensures r.Some? ==> IsRoot(nodes, r.value)
    decreases nodes.Keys - seen
  {
    if a !in nodes || a in seen then None
    else if nodes[a].spawnDepth <= 1 then Some(a)
    else if nodes[a].parentAgentId == "" then None
    else RootAbove(nodes, seen + {a}, nodes[a].parentAgentId)
  }

  predicate BelowAnchor(nodes: Nodes, anchors: set<string>, a: string) {
    var r := RootAbove(nodes, {}, a);
    r.Some? && nodes[r.value].toolUseId in anchors
  }

  lemma {:induction false} RootOfPath(nodes: Nodes, path: seq<string>, seen: set<string>, i: nat)
    requires IsPath(nodes, path) && i < |path| && forall a | a in seen :: a in path[i + 1..]
    ensures RootAbove(nodes, seen, path[i]) == Some(path[0])
    decreases i
  {
    PathFits(nodes, path);
    forall a | a in seen ensures a != path[i] {
      var j :| i + 1 <= j < |path| && path[j] == a;
      PathIsDistinct(nodes, path, i, j);
    }
    if i > 0 {
      assert IsChild(nodes, path[i], path[i - 1]);
      assert path[i..] == [path[i]] + path[i + 1..];
      RootOfPath(nodes, path, seen + {path[i]}, i - 1);
    }
  }

  lemma {:induction false} PathFromRoot(nodes: Nodes, seen: set<string>, a: string) returns (path: seq<string>)
    requires RootAbove(nodes, seen, a).Some?
    ensures IsPath(nodes, path) && Some(path[0]) == RootAbove(nodes, seen, a) && path[|path| - 1] == a
    decreases nodes.Keys - seen
  {
    if nodes[a].spawnDepth <= 1 {
      path := [a];
    } else {
      var above := PathFromRoot(nodes, seen + {a}, nodes[a].parentAgentId);
      PathExtends(nodes, above, a);
      path := above + [a];
    }
  }

  /** An agent is attached exactly when the first root above it is anchored. */
  lemma AttachedIff(nodes: Nodes, anchors: set<string>, a: string)
    ensures Attached(nodes, anchors, a) <==> BelowAnchor(nodes, anchors, a)
  {
    forall q | IsPath(nodes, q) && q[|q| - 1] == a ensures RootAbove(nodes, {}, a) == Some(q[0]) {
      RootOfPath(nodes, q, {}, |q| - 1);
    }
    if RootAbove(nodes, {}, a).Some? {
      var q := PathFromRoot(nodes, {}, a);
    }
  }

  /** So an agent appears exactly when the first root above it is anchored, whatever its diagnostic. */
  lemma AppearsIff(nodes: Nodes, order: seq<string>, anchors: set<string>, a: string)
    requires Lists(order, nodes)
    ensures a in AgentsOfAll(Assemble(nodes, order, anchors)) <==> BelowAnchor(nodes, anchors, a)
  {
    ForestHoldsAttached(nodes, order, anchors);
    AttachedIff(nodes, anchors, a);
  }

  /** The end of an agent's parent chain: the first on it that names no parent. */
  function TopOf(nodes: Nodes, a: string, depth: nat): string
    requires depth <= MAX_DEPTH
    decreases MAX_DEPTH - depth
  {
    if a !in nodes || nodes[a].parentAgentId == "" || depth == MAX_DEPTH then a
    else TopOf(nodes, nodes[a].parentAgentId, depth + 1)
  }

  ghost predicate RootsNameNoParent(nodes: Nodes) {
    forall r | IsRoot(nodes, r) :: nodes[r].parentAgentId == ""
  }

  lemma {:induction false} UnflaggedRootIsTop(nodes: Nodes, below: set<string>, a: string, depth: nat)
    requires RootsNameNoParent(nodes) && a in nodes && a !in below && depth <= MAX_DEPTH
    requires Climb(nodes, below + {a}, nodes[a].parentAgentId, depth) == ""
    ensures var top := TopOf(nodes, a, depth);
            RootAbove(nodes, below, a) == if IsRoot(nodes, top) then Some(top) else None
    decreases MAX_DEPTH - depth
  {
    var parent := nodes[a].parentAgentId;
    if nodes[a].spawnDepth <= 1 {
      assert IsRoot(nodes, a);
    } else if parent != "" {
      UnflaggedRootIsTop(nodes, below + {a}, parent, depth + 1);
    }
  }

  /** A deep agent without a diagnostic appears exactly when its parent chain ends at an anchored root. */
  lemma UnflaggedAppearsIff(nodes: Nodes, anchors: set<string>, a: string)
    requires RootsNameNoParent(nodes) && a in nodes && nodes[a].spawnDepth > 1 && Diagnose(nodes, a) == ""
    ensures var top := TopOf(nodes, a, 0);
            Attached(nodes, anchors, a) <==> IsRoot(nodes, top) && nodes[top].toolUseId in anchors
  {
    AttachedIff(nodes, anchors, a);
    assert {} + {a} == {a};
    UnflaggedRootIsTop(nodes, {}, a, 0);
  }

  predicate Flagged(nodes: Nodes, a: string) {
    Diagnose(nodes, a) == "cycle" || Diagnose(nodes, a) == "orphan_parent"
  }

  /**
   * An agent flagged as an orphan or in a cycle appears exactly when the first root above it is anchored and
   * names a parent.
   */
  lemma FlaggedAppearsIff(nodes: Nodes, anchors: set<string>, a: string)
    requires Flagged(nodes, a)
    ensures Attached(nodes, anchors, a) <==>
            BelowAnchor(nodes, anchors, a) && nodes[RootAbove(nodes, {}, a).value].parentAgentId != ""
  {
    AttachedIff(nodes, anchors, a);
    if RootAbove(nodes, {}, a).Some? {
      var q := PathFromRoot(nodes, {}, a);
      AttachedDiagnostic(nodes, q);
    }
  }

  /** When no root names a parent, none of them does. */
  lemma FlaggedDoesNotAppear(nodes: Nodes, anchors: set<string>, a: string)
    requires RootsNameNoParent(nodes) && Flagged(nodes, a)
    ensures !Attached(nodes, anchors, a)
  {
    FlaggedAppearsIff(nodes, anchors, a);
  }

  /** But a child of an anchored root that names a missing parent is flagged an orphan, and appears. */
  lemma FlaggedChildAppears(root: Node, child: Node)
    requires root.spawnDepth <= 1 && root.parentAgentId == "ghost" && child.spawnDepth > 1 && child.parentAgentId == "r"
    ensures var nodes := map["r" := root, "k" := child];
            Diagnose(nodes, "k") == "orphan_parent" && Attached(nodes, {root.toolUseId}, "k")
  {
    var nodes := map["r" := root, "k" := child];
    var above := RootAbove(nodes, {} + {"k"}, "r");
    assert above == Some("r") && RootAbove(nodes, {}, "k") == above;
    AttachedIff(nodes, {root.toolUseId}, "k");
    assert Climb(nodes, {"k"}, "r", 0) == Climb(nodes, {"k"} + {"r"}, "ghost", 1) == "orphan_parent";
  }

  /** An agent that names no parent is dropped without a diagnostic. */
  lemma DroppedWithoutDiagnostic(node: Node)
    requires node.spawnDepth > 1 && node.parentAgentId == ""
    ensures Diagnose(map["a" := node], "a") == ""
    ensures Assemble(map["a" := node], ["a"], {node.toolUseId}) == []
  {
    assert ["a"][1..] == [];
    assert AnchoredRoots(map["a" := node], ["a"], {node.toolUseId}) == [];
  }

  /** And so is a child of a root that is not anchored. */
  lemma ChildOfUnanchoredDropped(root: Node, child: Node, anchors: set<string>)
    requires root.spawnDepth <= 1 && root.parentAgentId == "" && root.toolUseId !in anchors
    requires child.spawnDepth > 1 && child.parentAgentId == "r"
    ensures var nodes := map["r" := root, "k" := child];
            Diagnose(nodes, "k") == "" && !Attached(nodes, anchors, "k")
  {
    var nodes := map["r" := root, "k" := child];
    var above := RootAbove(nodes, {} + {"k"}, "r");
    assert above == Some("r") && RootAbove(nodes, {}, "k") == above;
    AttachedIff(nodes, anchors, "k");
    assert Climb(nodes, {"k"}, "r", 0) == Climb(nodes, {"k"} + {"r"}, "", 1) == "";
  }
}
