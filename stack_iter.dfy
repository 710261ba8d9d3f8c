/**
  The in-order iterator of the single-file version: a stack of arena indices
  whose top is the next node to yield. Yielding a node pushes the left spine
  of its right subtree. The iterator only reads the tree.
*/
module StackIteration {
  import opened Wrappers
  import opened Key
  import opened Nodes
  import opened Shapes
  import opened Linking
  import opened Tree

  /**
    What the stack still owes, top first: for every stacked subtree, its
    root's value followed by its right subtree in order.
  */
  ghost function Pending(spine: seq<Shape>): seq<int>
  {
    if |spine| == 0 then []
    else
      var s := spine[|spine| - 1];
      (if s.Br? then [s.x.value] + InOrder(s.right) else []) + Pending(spine[..|spine| - 1])
  }

  /** Pushing a subtree puts its root and right subtree in front of what was owed. */
  lemma PendingPush(spine: seq<Shape>, s: Shape)
    requires s.Br?
    ensures Pending(spine + [s]) == [s.x.value] + InOrder(s.right) + Pending(spine)
  {
    assert (spine + [s])[..|spine|] == spine;
  }

  /** Pushing a subtree and moving on to its left child keeps the total owed. */
  lemma PendingDescend(spine: seq<Shape>, s: Shape)
    requires s.Br?
    ensures InOrder(s.left) + Pending(spine + [s]) == InOrder(s) + Pending(spine)
  {
    PendingPush(spine, s);
    SeqAssoc(InOrder(s.left), [s.x.value], InOrder(s.right), Pending(spine));
  }

  /**
    Every stacked index is the root of the matching subtree, which sits in
    the tree `t` at the matching context.
  */
  ghost predicate Stacked(t: Shape, stack: seq<nat>, ctxs: seq<Ctx>, spine: seq<Shape>)
  {
    |stack| == |spine| && |ctxs| == |spine| &&
    forall i :: 0 <= i < |spine| ==> spine[i].Br? && Plug(ctxs[i], spine[i]) == t && stack[i] == spine[i].x.key
  }

  lemma StackedPush(t: Shape, stack: seq<nat>, ctxs: seq<Ctx>, spine: seq<Shape>, c: Ctx, s: Shape)
    requires Stacked(t, stack, ctxs, spine) && s.Br? && Plug(c, s) == t
    ensures Stacked(t, stack + [s.x.key], ctxs + [c], spine + [s])
  {
  }

  lemma StackedPop(t: Shape, stack: seq<nat>, ctxs: seq<Ctx>, spine: seq<Shape>)
    requires Stacked(t, stack, ctxs, spine) && |stack| > 0
    ensures Stacked(t, stack[..|stack| - 1], ctxs[..|ctxs| - 1], spine[..|spine| - 1])
    ensures var n := |spine| - 1;
      spine[n].Br? && Plug(ctxs[n], spine[n]) == t && stack[n] == spine[n].x.key
  {
  }

  class Iter {
    const tree: RedBlackTreeSet
    /** Arena indices still to visit; the last one is the next to yield. */
    var stack: seq<nat>
    /** The subtree rooted at each stacked index, and where it sits in the tree. */
    ghost var spine: seq<Shape>
    ghost var ctxs: seq<Ctx>

    ghost predicate Valid()
      reads this, tree, tree.store
    {
      tree.Linkage() && Stacked(tree.shape, stack, ctxs, spine)
    }

    /** The values the iterator has yet to yield, in order. */
    ghost function Rest(): seq<int>
      reads this
    {
      Pending(spine)
    }

    /**
      `into_iter`: pushes the root and then every left child down to the
      leftmost node, so the whole tree is owed in order.
    */
    constructor IntoIter(t: RedBlackTreeSet)
      requires t.Linkage()
      ensures tree == t && Valid() && Rest() == InOrder(t.shape)
    {
      tree := t;
      var current := t.root;
      ghost var c, s := Top, t.shape;
      var st: seq<nat> := [];
      ghost var cs: seq<Ctx> := [];
      ghost var sp: seq<Shape> := [];
      while true
        invariant s.Br? && s.x.key == current && Plug(c, s) == t.shape
        invariant Stacked(t.shape, st, cs, sp)
        invariant InOrder(s) + Pending(sp) == InOrder(t.shape)
        decreases s
      {
        PendingDescend(sp, s);
        StackedPush(t.shape, st, cs, sp, c, s);
        st, cs, sp := st + [current], cs + [c], sp + [s];
        ChildSlot(t.store.nodes, c, s, L);
        var left := t.store.Get(current).left.Get();
        if left.None? {
          break;
        }
        PlugChild(c, s, L);
        current := left.value;
        c, s := Frame(L, s.x, s.right, c), s.left;
      }
      stack, ctxs, spine := st, cs, sp;
    }

    /**
      `next`: pops the top index, then pushes the left spine of its right
      subtree; answers the popped node's value, or none once the stack is empty.
    */
    method Next() returns (r: Option<int>)
      requires Valid()
      modifies this
      ensures Valid()
      ensures old(Rest()) == [] ==> r == None && Rest() == []
      ensures old(Rest()) != [] ==> r == Some(old(Rest())[0]) && Rest() == old(Rest())[1..]
    {
      if |stack| == 0 {
        return None;
      }
      ghost var owed := Pending(spine);
      StackedPop(tree.shape, stack, ctxs, spine);
      var top := stack[|stack| - 1];
      ghost var c, s := ctxs[|ctxs| - 1], spine[|spine| - 1];
      stack, ctxs, spine := stack[..|stack| - 1], ctxs[..|ctxs| - 1], spine[..|spine| - 1];
      assert old(spine) == spine + [s];
      PendingPush(spine, s);
      assert owed[1..] == InOrder(s.right) + Pending(spine);
      SubtreeRoot(tree.store.nodes, c, s);
      ChildSlot(tree.store.nodes, c, s, R);
      var node := tree.store.Get(top);
      var next := node.right;
      PlugChild(c, s, R);
      c, s := Frame(R, s.x, s.left, c), s.right;
      while next.Get().Some?
        invariant Valid()
        invariant Plug(c, s) == tree.shape && (s.Nil? <==> next.Get() == None)
        invariant s.Br? ==> next.Get() == Some(s.x.key)
        invariant InOrder(s) + Pending(spine) == owed[1..]
        decreases s
      {
        var k := next.Get().value;
        PendingDescend(spine, s);
        StackedPush(tree.shape, stack, ctxs, spine, c, s);
        stack, ctxs, spine := stack + [k], ctxs + [c], spine + [s];
        ChildSlot(tree.store.nodes, c, s, L);
        next := tree.store.Get(k).left;
        PlugChild(c, s, L);
        c, s := Frame(L, s.x, s.right, c), s.left;
      }
      return Some(node.value);
    }
  }

  /** Draining the iterator yields exactly what it owed. */
  method Collect(it: Iter) returns (out: seq<int>)
    requires it.Valid()
    modifies it
    ensures out == old(it.Rest()) && it.Rest() == []
  {
    ghost var owed := it.Rest();
    out := [];
    while true
      invariant it.Valid() && out + it.Rest() == owed
      decreases |it.Rest()|
    {
      ghost var before := it.Rest();
      var r := it.Next();
      if r.None? {
        return;
      }
      ghost var done := out;
      ghost var rest := it.Rest();
      assert before == [r.value] + rest;
      out := out + [r.value];
      assert out + rest == done + before;
    }
  }
}
