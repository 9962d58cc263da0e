/** The disjoint-set forest of the collision check: an array of parents, path
    halving on lookup, and linking without ranks. */
module UnionFind {
  /** Every member of the tree rooted at `a` gets the root `b`. */
  function Merged(rootOf: seq<nat>, a: nat, b: nat): (m: seq<nat>)
    ensures |m| == |rootOf|
    ensures forall k :: 0 <= k < |rootOf| ==> m[k] == if rootOf[k] == a then b else rootOf[k]
  {
    seq(|rootOf|, k requires 0 <= k < |rootOf| => if rootOf[k] == a then b else rootOf[k])
  }

  ghost function Highest(heights: seq<nat>): (h: nat)
    ensures forall k :: 0 <= k < |heights| ==> heights[k] <= h
  {
    if heights == [] then 0
    else
      var rest := Highest(heights[..|heights| - 1]);
      assert forall k :: 0 <= k < |heights| - 1 ==> heights[k] == heights[..|heights| - 1][k];
      if heights[|heights| - 1] > rest then heights[|heights| - 1] else rest
  }

  /** `root[k]` is the root of k's tree, and heights grow along every parent
      edge, so no chain of parents closes on itself. */
  ghost predicate Rooted(parent: seq<nat>, root: seq<nat>, height: seq<nat>) {
    && |parent| == |root| == |height|
    && (forall k :: 0 <= k < |parent| ==> parent[k] < |parent|)
    && (forall k {:trigger root[k]} :: 0 <= k < |parent| ==> root[k] < |parent| && parent[root[k]] == root[k])
    && (forall k {:trigger parent[k]} :: 0 <= k < |parent| ==> root[parent[k]] == root[k])
    && (forall k {:trigger parent[k]} ::
        0 <= k < |parent| ==> if parent[k] == k then root[k] == k else height[k] < height[parent[k]])
  }

  /** Pointing a node at its grandparent keeps every root. */
  lemma {:induction false} HalvingKeepsRoots(parent: seq<nat>, root: seq<nat>, height: seq<nat>, i: nat)
    requires Rooted(parent, root, height) && i < |parent| && parent[i] != i
    ensures Rooted(parent[i := parent[parent[i]]], root, height)
    ensures height[i] < height[parent[parent[i]]]
  {
    var p := parent[i];
    var halved := parent[i := parent[p]];
    assert height[i] < height[p];
    assert parent[p] != p ==> height[p] < height[parent[p]];
    assert root[parent[p]] == root[p] == root[i];
    forall k | 0 <= k < |parent|
      ensures halved[k] < |parent| && halved[root[k]] == root[k] && root[halved[k]] == root[k]
      ensures if halved[k] == k then root[k] == k else height[k] < height[halved[k]]
    {
      assert parent[root[k]] == root[k];
    }
  }

  /** Hanging the root `a` below the root `b` moves exactly the members of a's tree. */
  lemma {:induction false} LinkingMovesOneTree(parent: seq<nat>, root: seq<nat>, height: seq<nat>, a: nat, b: nat)
    requires Rooted(parent, root, height) && a < |parent| && b < |parent| && a != b
    requires parent[a] == a && parent[b] == b
    ensures Rooted(parent[a := b], Merged(root, a, b), height[b := height[b] + height[a] + 1])
  {
    var linked, roots, heights := parent[a := b], Merged(root, a, b), height[b := height[b] + height[a] + 1];
    forall k | 0 <= k < |parent|
      ensures roots[k] < |parent| && linked[roots[k]] == roots[k] && roots[linked[k]] == roots[k]
      ensures if linked[k] == k then roots[k] == k else heights[k] < heights[linked[k]]
    {
      assert parent[root[k]] == root[k] && root[parent[k]] == root[k];
      assert root[a] == a && root[b] == b;
    }
  }

  lemma {:induction false} RootsAreTheirOwn(parent: seq<nat>, root: seq<nat>, height: seq<nat>, i: nat)
    requires Rooted(parent, root, height) && i < |parent|
    ensures root[i] < |parent| && parent[root[i]] == root[i] && root[root[i]] == root[i]
  {}

  lemma {:induction false} MergedWithItself(root: seq<nat>, a: nat)
    ensures Merged(root, a, a) == root
  {}

  class Forest {
    var parent: array<nat>
    ghost var rootOf: seq<nat>
    ghost var height: seq<nat>

    ghost predicate Valid()
      reads this, parent
    {
      Rooted(parent[..], rootOf, height)
    }

    constructor (n: nat)
      ensures Valid() && fresh(parent) && parent.Length == n
      ensures forall k :: 0 <= k < n ==> rootOf[k] == k
    {
      parent := new nat[n](k => k);
      rootOf := seq(n, k => k);
      height := seq(n, _ => 0);
    }

    /** Follows the parents to the root and halves the path on the way. */
    method Find(start: nat) returns (root: nat)
      requires Valid() && start < parent.Length
      modifies parent
      ensures Valid()
      ensures root == rootOf[start] && root < parent.Length && parent[root] == root
    {
      var i: nat := start;
      while parent[i] != i
        invariant i < parent.Length && Valid() && rootOf[i] == rootOf[start]
        decreases Highest(height) - height[i]
      {
        HalvingKeepsRoots(parent[..], rootOf, height, i);
        ghost var halved := parent[..][i := parent[parent[i]]];
        parent[i] := parent[parent[i]];
        assert parent[..] == halved;
        i := parent[i];
      }
      root := i;
    }

    /** Hangs one root below another. */
    method Hang(ri: nat, rj: nat)
      requires Valid() && ri < parent.Length && rj < parent.Length && ri != rj
      requires rootOf[ri] == ri && rootOf[rj] == rj && parent[ri] == ri && parent[rj] == rj
      modifies this`rootOf, this`height, parent
      ensures Valid()
      ensures rootOf == Merged(old(rootOf), ri, rj)
    {
      LinkingMovesOneTree(parent[..], rootOf, height, ri, rj);
      ghost var linked := parent[..][ri := rj];
      parent[ri] := rj;
      assert parent[..] == linked;
      height := height[rj := height[rj] + height[ri] + 1];
      rootOf := Merged(rootOf, ri, rj);
    }

    /** Joins two trees; the root of the first hangs below the root of the second. */
    method Union(i: nat, j: nat)
      requires Valid() && i < parent.Length && j < parent.Length
      modifies this`rootOf, this`height, parent
      ensures Valid()
      ensures rootOf == Merged(old(rootOf), old(rootOf[i]), old(rootOf[j]))
    {
      var ri := Find(i);
      var rj := Find(j);
      RootsAreTheirOwn(parent[..], rootOf, height, i);
      RootsAreTheirOwn(parent[..], rootOf, height, j);
      if ri != rj {
        Hang(ri, rj);
      } else {
        MergedWithItself(rootOf, ri);
      }
    }
  }
}
