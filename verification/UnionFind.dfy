/** Union-find with path compression over an array of parents, as the session catalog builds it. */
module UnionFind {

  /**
   * `rep` gives each index its root and `height` rises strictly along parents: together they witness
   * that following parents ends, and where.
   */
  ghost predicate Forest(parent: seq<int>, rep: seq<int>, height: seq<nat>) {
    && |parent| == |rep| == |height|
    && forall i | 0 <= i < |parent| ::
         && 0 <= parent[i] < |parent| && 0 <= rep[i] < |parent|
         && parent[rep[i]] == rep[i] && rep[parent[i]] == rep[i]
         && height[i] <= height[rep[i]]
         && (parent[i] == i ==> rep[i] == i)
         && (parent[i] != i ==> height[i] < height[parent[i]])
  }

  /** The root of every index after `lhs`'s tree took in `rhs`'s tree. */
  ghost function Merge(rep: seq<int>, lhs: int, rhs: int): (merged: seq<int>)
    requires 0 <= lhs < |rep| && 0 <= rhs < |rep|
    ensures |merged| == |rep|
    ensures forall i | 0 <= i < |rep| :: merged[i] == if rep[i] == rep[rhs] then rep[lhs] else rep[i]
  {
    seq(|rep|, i requires 0 <= i < |rep| => if rep[i] == rep[rhs] then rep[lhs] else rep[i])
  }

  method Find(parent: array<int>, index: int, ghost rep: seq<int>, ghost height: seq<nat>) returns (root: int)
    requires Forest(parent[..], rep, height) && 0 <= index < parent.Length
    modifies parent
    ensures Forest(parent[..], rep, height)
    ensures root == rep[index] && parent[root] == root
    decreases height[rep[index]] - height[index]
  {
    if parent[index] != index {
      assert rep[parent[index]] == rep[index];
      var above := Find(parent, parent[index], rep, height);
      parent[index] := above;
    }
    root := parent[index];
  }

  /** Raising the upper root when it is no higher than the lower one. */
  ghost function Raised(height: seq<nat>, left: int, right: int): (r: seq<nat>)
    requires 0 <= left < |height| && 0 <= right < |height|
    ensures |r| == |height| && r[left] > height[right] && r[left] >= height[left]
    ensures forall i | 0 <= i < |height| && i != left :: r[i] == height[i]
  {
    if height[left] <= height[right] then height[left := height[right] + 1] else height
  }

  /** Hanging one root under another merges their trees. */
  lemma LinkRoots(parent: seq<int>, rep: seq<int>, height: seq<nat>, lhs: int, rhs: int) returns (height': seq<nat>)
    requires Forest(parent, rep, height) && 0 <= lhs < |parent| && 0 <= rhs < |parent| && rep[lhs] != rep[rhs]
    ensures Forest(parent[rep[rhs] := rep[lhs]], Merge(rep, lhs, rhs), height')
  {
    var left, right := rep[lhs], rep[rhs];
    assert parent[left] == left && parent[right] == right;
    height' := Raised(height, left, right);
    var parent', rep' := parent[right := left], Merge(rep, lhs, rhs);
    forall i | 0 <= i < |parent|
      ensures parent'[rep'[i]] == rep'[i] && rep'[parent'[i]] == rep'[i] && height'[i] <= height'[rep'[i]]
      ensures parent'[i] == i ==> rep'[i] == i
      ensures parent'[i] != i ==> height'[i] < height'[parent'[i]]
    {
      assert rep[parent[i]] == rep[i] && height[i] <= height[rep[i]] && parent[rep[i]] == rep[i];
      assert rep[left] == left && rep[right] == right;
    }
  }

  method Union(parent: array<int>, lhs: int, rhs: int, ghost rep: seq<int>, ghost height: seq<nat>)
    returns (ghost rep': seq<int>, ghost height': seq<nat>)
    requires Forest(parent[..], rep, height) && 0 <= lhs < parent.Length && 0 <= rhs < parent.Length
    modifies parent
    ensures rep' == Merge(rep, lhs, rhs) && Forest(parent[..], rep', height')
  {
    var leftRoot := Find(parent, lhs, rep, height);
    var rightRoot := Find(parent, rhs, rep, height);
    rep', height' := Merge(rep, lhs, rhs), height;
    if leftRoot != rightRoot {
      height' := LinkRoots(parent[..], rep, height, lhs, rhs);
      ghost var linked := parent[..][rightRoot := leftRoot];
      parent[rightRoot] := leftRoot;
      assert parent[..] == linked;
    } else {
      assert rep' == rep;
    }
  }
}
