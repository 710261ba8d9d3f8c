/**
  The in-order iterator of the modular version: no stack, just a cursor on
  the next node to yield. Yielding a node moves the cursor to the leftmost
  node of its right subtree or, without one, climbs the parent references
  while coming up from a right child. The iterator only reads the tree.
*/
module CursorIteration {
  import opened Wrappers
  import opened Key
  import opened Nodes
  import opened Shapes
  import opened Linking
  import opened ArenaSteps
  import opened Tree

  /** The leftmost node of a non-empty subtree: the end of its chain of left children. */
  ghost function Leftmost(s: Shape): Entry
    requires s.Br?
  {
    if s.left.Nil? then s.x else Leftmost(s.left)
  }

  /**
    The nearest ancestor of a hole that the hole lies to the left of: the
    node reached by climbing out of right children, then once out of a left
    child; none when the hole lies on the tree's right edge.
  */
  function FirstLeftAncestor(c: Ctx): Option<nat>
  {
    match c
    case Top => None
    case InLeft(x, _, _) => Some(x.key)
    case InRight(_, _, up) => FirstLeftAncestor(up)
  }

  /** Stepping the hole up to its parent leaves the whole tree as it was. */
  lemma PlugUp(c: Ctx, s: Shape)
    requires c != Top
    ensures Plug(c.up, Join(HoleDir(c), s, c.x, c.sib)) == Plug(c, s)
  {
    PlugFrame(HoleDir(c), c.x, c.sib, c.up, s);
  }

  class Iter {
    const tree: RedBlackTreeSet
    /** The node to yield next; none once the iteration is over. */
    var next: OptionKey
    /** Where the cursor's node sits in the tree, and the subtree it roots. */
    ghost var ctx: Ctx
    ghost var sub: Shape

    ghost predicate Valid()
      reads this, tree, tree.store
    {
      tree.Linkage() &&
      (next.Get().Some? ==> sub.Br? && Plug(ctx, sub) == tree.shape && next.Get() == Some(sub.x.key))
    }

    /** The values the iterator has yet to yield, in order: the cursor's node, its right subtree, then everything after it. */
    ghost function Rest(): seq<int>
      reads this
    {
      if next.Get().None? || sub.Nil? then [] else [sub.x.value] + InOrder(sub.right) + After(ctx)
    }

    /**
      `create_iterator`: follows left children from the root; the cursor
      lands on the leftmost node, so the whole tree is owed in order.
    */
    constructor Create(t: RedBlackTreeSet)
      requires t.Linkage()
      ensures tree == t && Valid() && Rest() == InOrder(t.shape)
      ensures next.Get() == Some(Leftmost(t.shape).key)
    {
      tree := t;
      var current := t.root;
      ghost var c, s := Top, t.shape;
      while true
        invariant s.Br? && s.x.key == current && Plug(c, s) == t.shape
        invariant Before(c) == [] && Leftmost(s) == Leftmost(t.shape)
        decreases s
      {
        ChildSlot(t.store.nodes, c, s, L);
        var left := t.store.Get(current).left.Get();
        if left.None? {
          break;
        }
        PlugChild(c, s, L);
        current := left.value;
        c, s := Frame(L, s.x, s.right, c), s.left;
      }
      SubtreeRoot(t.store.nodes, c, s);
      InOrderPlug(c, s);
      next := NewKey(current);
      ctx, sub := c, s;
    }

    /**
      `next`: answers the cursor's value and moves the cursor on to the
      in-order successor, or answers none when the cursor is empty.
    */
    method Next() returns (r: Option<int>)
      requires Valid()
      modifies this
      ensures Valid()
      ensures r == None <==> old(next.Get()) == None
      ensures old(Rest()) == [] ==> r == None && Rest() == []
      ensures old(Rest()) != [] ==> r == Some(old(Rest())[0]) && Rest() == old(Rest())[1..]
      ensures r.Some? && old(sub.right).Br? ==> next.Get() == Some(Leftmost(old(sub.right)).key)
      ensures r.Some? && old(sub.right).Nil? ==> next.Get() == FirstLeftAncestor(old(ctx))
    {
      var cursor := next.Get();
      if cursor.None? {
        return None;
      }
      var current := cursor.value;
      ghost var nodes := tree.store.nodes;
      SubtreeRoot(nodes, ctx, sub);
      ChildSlot(nodes, ctx, sub, R);
      var node := tree.store.Get(current);
      ghost var owed := InOrder(sub.right) + After(ctx);
      assert Rest()[1..] == owed;
      var right := node.right.Get();
      if right.Some? {
        var x := right.value;
        PlugChild(ctx, sub, R);
        ghost var c, s := Frame(R, sub.x, sub.left, ctx), sub.right;
        while true
          invariant s.Br? && s.x.key == x && Plug(c, s) == tree.shape
          invariant InOrder(s) + After(c) == owed && Leftmost(s) == Leftmost(old(sub.right))
          decreases s
        {
          ChildSlot(nodes, c, s, L);
          var left := tree.store.Get(x).left.Get();
          if left.None? {
            break;
          }
          PlugChild(c, s, L);
          SeqAssoc(InOrder(s.left), [s.x.value], InOrder(s.right), After(c));
          x := left.value;
          c, s := Frame(L, s.x, s.right, c), s.left;
        }
        SubtreeRoot(nodes, c, s);
        assert [s.x.value] + InOrder(s.right) + After(c) == owed;
        next := NewKey(x);
        ctx, sub := c, s;
      } else {
        var parent := node.parent;
        ghost var c, s := ctx, sub;
        assert owed == After(ctx);
        while true
          invariant s.Br? && s.x.key == current && Plug(c, s) == tree.shape && parent == HoleParent(c)
          invariant After(c) == owed && FirstLeftAncestor(c) == FirstLeftAncestor(old(ctx))
          decreases Depth(c)
        {
          var up := parent.Get();
          if up.None? {
            break;
          }
          FixSite(nodes, c, s);
          var k := up.value;
          var parentNode := tree.store.Get(k);
          if !parentNode.right.Is(current) {
            break;
          }
          PlugUp(c, s);
          current := k;
          parent := parentNode.parent;
          c, s := c.up, Join(HoleDir(c), s, c.x, c.sib);
        }
        next := parent;
        if c != Top {
          FixSite(nodes, c, s);
          PlugUp(c, s);
          ctx, sub := c.up, Join(HoleDir(c), s, c.x, c.sib);
          assert [sub.x.value] + InOrder(sub.right) + After(ctx) == owed;
        }
      }
      return Some(node.value);
    }
  }

  /** Draining the iterator yields exactly what it owed. */
  method Collect(it: Iter) returns (out: seq<int>)
    requires it.Valid()
    modifies it
    ensures out == old(it.Rest()) && it.Rest() == []
  {
    ghost var owed := it.Rest();
    out := [];
    while true
      invariant it.Valid() && out + it.Rest() == owed
      decreases |it.Rest()|
    {
      ghost var before := it.Rest();
      var r := it.Next();
      if r.None? {
        return;
      }
      ghost var done := out;
      ghost var rest := it.Rest();
      assert before == [r.value] + rest;
      out := out + [r.value];
      assert out + rest == done + before;
    }
  }
}
