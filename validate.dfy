/**
  The invariant checker: `black_count` walks the arena from a node, fails
  (`None` here, a panic in the source) on a Red node under a Red parent or on
  two children with different black counts, and otherwise answers the
  number of Black nodes on the way down, the node itself included.
  `validate_constraints` also demands a Black root.

  As written, a node with a single child never compares that child's count
  with the zero of its missing side, so some unbalanced trees pass;
  `CheckedBlackCount` is the check with that comparison made.
*/
module Validation {
  import opened Wrappers
  import opened Key
  import opened Nodes
  import opened Shapes
  import opened Linking
  import opened RedBlack
  import opened Tree

  /** The red-red test of `black_count`: a Red node under a Red parent. */
  predicate RedUnderRed(parentColor: Color, s: Shape)
  {
    parentColor == Red && IsRed(s)
  }

  /** Adds the node's own contribution to its children's common count. */
  function Plus(below: Option<nat>, color: Color): (r: Option<nat>)
    ensures r.Some? <==> below.Some?
    ensures r.Some? ==> r.value == below.value + (if color == Black then 1 else 0)
  {
    if below.None? then None else Some(below.value + (if color == Black then 1 else 0))
  }

  /** `black_count` as written: a lone child's count is taken without comparison. */
  function BlackCount(nodes: seq<Node>, k: nat, parentColor: Color, ghost s: Shape): (r: Option<nat>)
    requires Hangs(nodes, s) && s.x.key == k && |nodes| < USIZE_MAX
    ensures r.Some? ==> RedOk(s) && !RedUnderRed(parentColor, s)
    ensures RedOk(s) && Balanced(s) && !RedUnderRed(parentColor, s) ==> r == Some(Bh(s))
    decreases s
  {
    HangsChild(nodes, s, L);
    HangsChild(nodes, s, R);
    var node := nodes[k];
    if parentColor == Red && node.color == Red then None
    else
      var below :=
        match (node.left.Get(), node.right.Get())
        case (None, None) => Some(0)
        case (None, Some(right)) => BlackCount(nodes, right, node.color, s.right)
        case (Some(left), None) => BlackCount(nodes, left, node.color, s.left)
        case (Some(left), Some(right)) =>
          var leftCount := BlackCount(nodes, left, node.color, s.left);
          var rightCount := BlackCount(nodes, right, node.color, s.right);
          if leftCount.None? || rightCount.None? || leftCount != rightCount then None else leftCount;
      Plus(below, node.color)
  }

  /** `black_count` with an absent child counted as zero and compared like a present one. */
  function CheckedBlackCount(nodes: seq<Node>, k: nat, parentColor: Color, ghost s: Shape): (r: Option<nat>)
    requires Hangs(nodes, s) && s.x.key == k && |nodes| < USIZE_MAX
    ensures r.Some? <==> RedOk(s) && Balanced(s) && !RedUnderRed(parentColor, s)
    ensures r.Some? ==> r.value == Bh(s)
    decreases s
  {
    HangsChild(nodes, s, L);
    HangsChild(nodes, s, R);
    var node := nodes[k];
    assert node.color == s.x.color;
    if parentColor == Red && node.color == Red then None
    else
      var leftCount := match node.left.Get()
        case None => Some(0)
        case Some(left) => CheckedBlackCount(nodes, left, node.color, s.left);
      var rightCount := match node.right.Get()
        case None => Some(0)
        case Some(right) => CheckedBlackCount(nodes, right, node.color, s.right);
      assert leftCount.Some? <==> RedOk(s.left) && Balanced(s.left) && !RedUnderRed(s.x.color, s.left);
      assert rightCount.Some? <==> RedOk(s.right) && Balanced(s.right) && !RedUnderRed(s.x.color, s.right);
      assert leftCount.Some? ==> leftCount.value == Bh(s.left);
      assert rightCount.Some? ==> rightCount.value == Bh(s.right);
      if leftCount.None? || rightCount.None? || leftCount != rightCount then None
      else Plus(leftCount, node.color)
  }

  /** `validate_constraints` as written: a Black root, then `black_count` from it. */
  function ValidateConstraints(t: RedBlackTreeSet): (ok: bool)
    reads t, t.store
    requires t.Linkage()
    ensures ok ==> t.shape.x.color == Black && RedOk(t.shape)
    ensures RedBlackTree(t.shape) ==> ok
  {
    RootHangs(t.store.nodes, t.shape);
    t.store.Get(t.root).color == Black && BlackCount(t.store.nodes, t.root, Black, t.shape).Some?
  }

  /** `validate_constraints` over the corrected count: passes exactly on red-black trees. */
  function CheckedValidateConstraints(t: RedBlackTreeSet): (ok: bool)
    reads t, t.store
    requires t.Linkage()
    ensures ok <==> RedBlackTree(t.shape)
  {
    RootHangs(t.store.nodes, t.shape);
    t.store.Get(t.root).color == Black && CheckedBlackCount(t.store.nodes, t.root, Black, t.shape).Some?
  }

  /**
    The check as written passes a tree that is not black-balanced: a Black
    root whose only child, on the right, is Black (left black height 0,
    right black height 1); the corrected check rejects it.
  */
  lemma LoneBlackChildPasses()
    ensures var s := Br(Nil, Entry(0, Black, 0), Br(Nil, Entry(1, Black, 1), Nil));
      var nodes := [Node(0, Black, NoneKey(), NoneKey(), OptionKey(1)), Node(1, Black, OptionKey(0), NoneKey(), NoneKey())];
      Linked(nodes, s, NoneKey()) && !Balanced(s) &&
      BlackCount(nodes, 0, Black, s) == Some(2) && CheckedBlackCount(nodes, 0, Black, s) == None
  {
    var s := Br(Nil, Entry(0, Black, 0), Br(Nil, Entry(1, Black, 1), Nil));
    var nodes := [Node(0, Black, NoneKey(), NoneKey(), OptionKey(1)), Node(1, Black, OptionKey(0), NoneKey(), NoneKey())];
    assert Linked(nodes, s.right, OptionKey(0));
    assert Keys(s.right) == {1};
    assert Linked(nodes, s, NoneKey());
    assert nodes[0].left.Get() == None && nodes[0].right.Get() == Some(1);
    assert nodes[1].left.Get() == None && nodes[1].right.Get() == None;
    assert BlackCount(nodes, 1, Black, s.right) == Some(1);
  }
}
