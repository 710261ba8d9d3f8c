/**
  The exclusive arena: a growable sequence of nodes addressed by index. It
  never shrinks and never reorders, so an index, once issued, stays valid.
*/
module Storage {
  import opened Nodes

  /** Every node of `before` is still at its index in `after`. */
  ghost predicate Grown(before: seq<Node>, after: seq<Node>)
  {
    |before| <= |after| && after[..|before|] == before
  }

  class VecStorage {
    var nodes: seq<Node>

    /** `VecStorage::new()`: an empty arena. */
    constructor Empty()
      ensures nodes == []
    {
      nodes := [];
    }

    /** `new_with(value)` (and `new(value)` of the single-file version): one Black, unlinked node. */
    constructor NewWith(v: int)
      ensures nodes == [RootNode(v)]
    {
      nodes := [RootNode(v)];
    }

    /** Number of nodes in the arena, over every tree that shares it. */
    function Len(): (n: nat)
      reads this
      ensures n == |nodes|
    {
      |nodes|
    }

    /** Appends a node; its index is the length before the call. */
    method Push(n: Node)
      modifies this
      ensures |nodes| == old(|nodes|) + 1 && nodes[old(|nodes|)] == n
      ensures Grown(old(nodes), nodes)
    {
      nodes := nodes + [n];
    }

    /** Read access to an issued index (bounds are a precondition, as in release builds). */
    function Get(i: nat): (n: Node)
      reads this
      requires i < |nodes|
      ensures n in nodes
    {
      nodes[i]
    }

    /** A write through `get_mut(i)`: replaces node `i` and nothing else. */
    method Write(i: nat, n: Node)
      requires i < |nodes|
      modifies this
      ensures nodes == old(nodes)[i := n]
    {
      nodes := nodes[i := n];
    }
  }
}
