/**
  The shared arena: one `VecStorage` holding several independently rooted
  trees. Every tree handle points at the same arena; adding a tree appends
  its lone Black root. Inserting into one tree rewrites only nodes of that
  tree and appends at the end, so the other trees stay as they were.
*/
module SharedStorage {
  import opened Key
  import opened Nodes
  import opened Storage
  import opened Shapes
  import opened Linking
  import opened Tree

  /**
    A tree spelled out by an arena stays spelled out after changes that keep
    every index below the old length outside `ks` intact, if none of its
    indices is in `ks`.
  */
  lemma {:induction false} SiblingKept(n0: seq<Node>, n1: seq<Node>, s: Shape, ks: set<nat>)
    requires Linked(n0, s, NoneKey()) && Keys(s) !! ks
    requires |n0| <= |n1| && SameOutside(n0, n1[..|n0|], ks)
    ensures Linked(n1, s, NoneKey())
  {
    LinkedBounds(n0, s, NoneKey());
    forall k | k in Keys(s) ensures k < |n0| && k < |n1| && n1[k] == n0[k] {
      assert n1[..|n0|][k] == n1[k];
    }
    LinkedFrame(n0, n1, s, NoneKey());
  }

  class SharedVecStorage {
    const inner: VecStorage

    /** `SharedVecStorage::new()`: an empty shared arena. */
    constructor New()
      ensures fresh(inner) && inner.nodes == []
    {
      inner := new VecStorage.Empty();
    }

    /**
      `add_tree(v)`: appends one Black, unlinked node holding `v` and hands
      out a tree over this arena rooted at the node's index.
    */
    method AddTree(v: int) returns (t: RedBlackTreeSet)
      requires |inner.nodes| + 1 < USIZE_MAX
      modifies inner
      ensures fresh(t) && t.store == inner && t.root == old(|inner.nodes|)
      ensures inner.nodes == old(inner.nodes) + [RootNode(v)]
      ensures t.Valid() && t.Elements() == {v} && t.Footprint() == {t.root}
    {
      var root := inner.Len();
      var node := FromValue(v).(color := Black);
      inner.Push(node);
      t := new RedBlackTreeSet.Over(inner, root);
    }

    /** Forwarded `len`. */
    function Len(): (n: nat)
      reads this, inner
      ensures n == |inner.nodes|
    {
      inner.Len()
    }

    /** Forwarded `push`: appends at the old length. */
    method Push(n: Node)
      modifies inner
      ensures inner.nodes == old(inner.nodes) + [n]
    {
      inner.Push(n);
    }

    /** Forwarded `get`. */
    function Get(i: nat): (n: Node)
      reads this, inner
      requires i < |inner.nodes|
      ensures n == inner.nodes[i]
    {
      inner.Get(i)
    }

    /** Forwarded write through `get_mut`. */
    method Write(i: nat, n: Node)
      requires i < |inner.nodes|
      modifies inner
      ensures inner.nodes == old(inner.nodes)[i := n]
    {
      inner.Write(i, n);
    }
  }

  /** Two successive `add_tree` calls give two trees with distinct, increasing roots and disjoint nodes. */
  method AddTwo(shared: SharedVecStorage, v: int, w: int) returns (t: RedBlackTreeSet, u: RedBlackTreeSet)
    requires |shared.inner.nodes| + 2 < USIZE_MAX
    modifies shared.inner
    ensures t != u && t.store == u.store == shared.inner
    ensures t.root < u.root && t.Footprint() !! u.Footprint()
    ensures t.Valid() && u.Valid() && t.Elements() == {v} && u.Elements() == {w}
  {
    t := shared.AddTree(v);
    ghost var n0 := shared.inner.nodes;
    u := shared.AddTree(w);
    SiblingKept(n0, shared.inner.nodes, t.shape, u.Footprint());
  }

  /**
    Inserting into one tree of a shared arena keeps every other tree that
    shares no node with it valid, with its nodes untouched, and the two
    trees still share no node.
  */
  method InsertBeside(t: RedBlackTreeSet, other: RedBlackTreeSet, v: int) returns (idx: nat)
    requires t != other && t.store == other.store
    requires t.Valid() && other.Valid() && t.Footprint() !! other.Footprint()
    requires |t.store.nodes| + 1 < USIZE_MAX
    modifies t, t.store
    ensures t.Valid() && other.Valid() && t.Footprint() !! other.Footprint()
    ensures t.Elements() == old(t.Elements()) + {v}
    ensures other.Elements() == old(other.Elements()) && other.root == old(other.root)
  {
    ghost var n0 := t.store.nodes;
    LinkedBounds(n0, other.shape, NoneKey());
    idx := t.Insert(v);
    SiblingKept(n0, t.store.nodes, other.shape, old(t.Footprint()));
  }
}
