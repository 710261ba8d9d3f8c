/**
  The red-black invariants on shapes (an absent child counts as Black and
  contributes no Black node), and the loop invariant of insertion fixup with
  one lemma per case of the repair.
*/
module RedBlack {
  import opened Nodes
  import opened Shapes
  import opened Rotation

  predicate IsRed(s: Shape) { s.Br? && s.x.color == Red }

  /** No Red node has a Red child. */
  ghost predicate RedOk(s: Shape)
  {
    match s
    case Nil => true
    case Br(l, x, r) => (x.color == Red ==> !IsRed(l) && !IsRed(r)) && RedOk(l) && RedOk(r)
  }

  /** Number of Black nodes on the leftmost path, counting the node itself. */
  function Bh(s: Shape): nat
  {
    match s
    case Nil => 0
    case Br(l, x, _) => Bh(l) + (if x.color == Black then 1 else 0)
  }

  /** Every node's two subtrees (absent ones included) have equal black height. */
  ghost predicate Balanced(s: Shape)
  {
    match s
    case Nil => true
    case Br(l, _, r) => Balanced(l) && Balanced(r) && Bh(l) == Bh(r)
  }

  ghost predicate RedBlackTree(s: Shape)
  {
    (s.Br? ==> s.x.color == Black) && RedOk(s) && Balanced(s)
  }

  /** `s` with its root recoloured. */
  function Paint(s: Shape, c: Color): (t: Shape)
    requires s.Br?
    ensures t.Br? && t.x.key == s.x.key && t.x.color == c
  {
    Br(s.left, s.x.(color := c), s.right)
  }

  /** The context has no red-red pair, given whether the hole's root is Red. */
  ghost predicate CtxRedOk(c: Ctx, holeRed: bool)
  {
    match c
    case Top => true
    case InLeft(x, sib, up) =>
      RedOk(sib) && (x.color == Red ==> !holeRed && !IsRed(sib)) && CtxRedOk(up, x.color == Red)
    case InRight(sib, x, up) =>
      RedOk(sib) && (x.color == Red ==> !holeRed && !IsRed(sib)) && CtxRedOk(up, x.color == Red)
  }

  /** The context is black-balanced around a hole of black height `h`. */
  ghost predicate CtxBalanced(c: Ctx, h: nat)
  {
    match c
    case Top => true
    case InLeft(x, sib, up) =>
      Balanced(sib) && Bh(sib) == h && CtxBalanced(up, h + (if x.color == Black then 1 else 0))
    case InRight(sib, x, up) =>
      Balanced(sib) && Bh(sib) == h && CtxBalanced(up, h + (if x.color == Black then 1 else 0))
  }

  /** The outermost node of the context (the root of the whole tree) is Black. */
  ghost predicate OuterBlack(c: Ctx)
  {
    match c
    case Top => true
    case InLeft(x, _, up) => if up == Top then x.color == Black else OuterBlack(up)
    case InRight(_, x, up) => if up == Top then x.color == Black else OuterBlack(up)
  }

  lemma {:induction false} RedOkPlug(c: Ctx, s: Shape)
    ensures RedOk(Plug(c, s)) <==> RedOk(s) && CtxRedOk(c, IsRed(s))
    decreases c
  {
    match c
    case Top =>
    case InLeft(x, sib, up) => RedOkPlug(up, Br(s, x, sib));
    case InRight(sib, x, up) => RedOkPlug(up, Br(sib, x, s));
  }

  lemma {:induction false} BalancedPlug(c: Ctx, s: Shape)
    ensures Balanced(Plug(c, s)) <==> Balanced(s) && CtxBalanced(c, Bh(s))
    decreases c
  {
    match c
    case Top =>
    case InLeft(x, sib, up) => BalancedPlug(up, Br(s, x, sib));
    case InRight(sib, x, up) => BalancedPlug(up, Br(sib, x, s));
  }

  lemma {:induction false} OuterBlackPlug(c: Ctx, s: Shape)
    requires c != Top
    ensures Plug(c, s).Br? && (OuterBlack(c) <==> Plug(c, s).x.color == Black)
    decreases c
  {
    match c
    case InLeft(x, sib, up) => if up != Top { OuterBlackPlug(up, Br(s, x, sib)); }
    case InRight(sib, x, up) => if up != Top { OuterBlackPlug(up, Br(sib, x, s)); }
  }

  lemma FrameFacts(d: Dir, x: Entry, sib: Shape, up: Ctx, holeRed: bool, h: nat)
    ensures CtxRedOk(Frame(d, x, sib, up), holeRed) <==>
      RedOk(sib) && (x.color == Red ==> !holeRed && !IsRed(sib)) && CtxRedOk(up, x.color == Red)
    ensures CtxBalanced(Frame(d, x, sib, up), h) <==>
      Balanced(sib) && Bh(sib) == h && CtxBalanced(up, h + (if x.color == Black then 1 else 0))
    ensures OuterBlack(Frame(d, x, sib, up)) <==> if up == Top then x.color == Black else OuterBlack(up)
    ensures Depth(Frame(d, x, sib, up)) == Depth(up) + 1 && HoleDir(Frame(d, x, sib, up)) == d
  {
  }

  lemma JoinFacts(d: Dir, near: Shape, x: Entry, far: Shape)
    ensures RedOk(Join(d, near, x, far)) <==>
      (x.color == Red ==> !IsRed(near) && !IsRed(far)) && RedOk(near) && RedOk(far)
    ensures Balanced(Join(d, near, x, far)) <==> Balanced(near) && Balanced(far) && Bh(near) == Bh(far)
    ensures Bh(near) == Bh(far) ==> Bh(Join(d, near, x, far)) == Bh(near) + (if x.color == Black then 1 else 0)
    ensures IsRed(Join(d, near, x, far)) <==> x.color == Red
  {
  }

  /**
    The fixup loop invariant at "current" node `s` in context `c`: the only
    possible red-red pair is `s` (Red) under its parent; black heights are
    uniform; the tree's root is Black unless `s` is the root.
  */
  ghost predicate FixInv(c: Ctx, s: Shape)
  {
    IsRed(s) && RedOk(s) && Balanced(s) &&
    CtxRedOk(c, false) && CtxBalanced(c, Bh(s)) && OuterBlack(c)
  }

  /** A Red leaf hung into an empty slot of a red-black tree satisfies the fixup invariant. */
  lemma FixStart(c: Ctx, e: Entry)
    requires RedBlackTree(Plug(c, Nil)) && e.color == Red
    ensures FixInv(c, Br(Nil, e, Nil))
  {
    RedOkPlug(c, Nil);
    BalancedPlug(c, Nil);
    if c != Top { OuterBlackPlug(c, Nil); }
  }

  /** Loop exit at the root: blackening the root gives a red-black tree. */
  lemma FixDoneAtRoot(s: Shape)
    requires FixInv(Top, s)
    ensures RedBlackTree(Paint(s, Black))
  {
  }

  /** Loop exit under a Black parent: the tree is already red-black. */
  lemma FixDoneBlackParent(c: Ctx, s: Shape)
    requires FixInv(c, s) && c != Top && c.x.color == Black
    ensures Plug(c, s).Br? && RedBlackTree(Plug(c, s))
    ensures Paint(Plug(c, s), Black) == Plug(c, s)
  {
    RedOkPlug(c, s);
    BalancedPlug(c, s);
    OuterBlackPlug(c, s);
  }

  /** A Red parent is not the root, so the grandparent exists, and it is Black. */
  lemma RedParentHasBlackGrandparent(c: Ctx, s: Shape)
    requires FixInv(c, s) && c != Top && c.x.color == Red
    ensures c.up != Top && c.up.x.color == Black
  {
    FrameFacts(HoleDir(c), c.x, c.sib, c.up, false, Bh(s));
    if c.up != Top {
      FrameFacts(HoleDir(c.up), c.up.x, c.up.sib, c.up.up, true, Bh(s));
      assert Frame(HoleDir(c.up), c.up.x, c.up.sib, c.up.up) == c.up;
    }
    assert Frame(HoleDir(c), c.x, c.sib, c.up) == c;
  }

  /** The case shape of the grandparent's subtree. */
  function Grand(dn: Dir, dp: Dir, s: Shape, p: Entry, sib: Shape, g: Entry, uncle: Shape): Shape
  {
    Join(dp, Join(dn, s, p, sib), g, uncle)
  }

  /** Red uncle: parent and uncle turn Black, grandparent Red; the grandparent becomes current. */
  lemma FixUncleRed(dn: Dir, dp: Dir, s: Shape, p: Entry, sib: Shape, g: Entry, uncle: Shape, c2: Ctx)
    requires FixInv(Frame(dn, p, sib, Frame(dp, g, uncle, c2)), s)
    requires p.color == Red && IsRed(uncle)
    ensures FixInv(c2, Grand(dn, dp, s, p.(color := Black), sib, g.(color := Red), Paint(uncle, Black)))
  {
    var c1 := Frame(dp, g, uncle, c2);
    FrameFacts(dn, p, sib, c1, false, Bh(s));
    FrameFacts(dp, g, uncle, c2, true, Bh(s));
    var ps := Join(dn, s, p.(color := Black), sib);
    var us := Paint(uncle, Black);
    JoinFacts(dn, s, p.(color := Black), sib);
    assert Bh(us) == Bh(uncle) + 1;
    JoinFacts(dp, ps, g.(color := Red), us);
    FrameFacts(dp, g, uncle, c2, true, Bh(s));
    if c2 != Top {
      FrameFacts(HoleDir(c2), c2.x, c2.sib, c2.up, true, Bh(s) + 1);
      FrameFacts(HoleDir(c2), c2.x, c2.sib, c2.up, false, Bh(s) + 1);
    }
  }

  /**
    Black (or absent) uncle with parent and current on the same side `d`:
    parent turns Black, grandparent Red, and the grandparent is rotated so
    that the parent rises. The tree is then red-black around `s`.
  */
  lemma FixStraight(d: Dir, s: Shape, p: Entry, sib: Shape, g: Entry, uncle: Shape, c2: Ctx)
    requires FixInv(Frame(d, p, sib, Frame(d, g, uncle, c2)), s)
    requires p.color == Red && !IsRed(uncle)
    ensures RotateUp(d, Grand(d, d, s, p.(color := Black), sib, g.(color := Red), uncle))
         == Join(d, s, p.(color := Black), Join(d, sib, g.(color := Red), uncle))
    ensures FixInv(Frame(d, p.(color := Black), Join(d, sib, g.(color := Red), uncle), c2), s)
  {
    var c1 := Frame(d, g, uncle, c2);
    FrameFacts(d, p, sib, c1, false, Bh(s));
    FrameFacts(d, g, uncle, c2, true, Bh(s));
    var gs := Join(d, sib, g.(color := Red), uncle);
    JoinFacts(d, sib, g.(color := Red), uncle);
    FrameFacts(d, p.(color := Black), gs, c2, false, Bh(s));
    if c2 != Top {
      FrameFacts(HoleDir(c2), c2.x, c2.sib, c2.up, true, Bh(s) + 1);
      FrameFacts(HoleDir(c2), c2.x, c2.sib, c2.up, false, Bh(s) + 1);
    }
  }

  /**
    Black (or absent) uncle with current on the inner side: the parent is
    rotated so that current rises, and the former parent becomes current,
    now on the outer side.
  */
  lemma FixZigZag(dp: Dir, s: Shape, p: Entry, sib: Shape, g: Entry, uncle: Shape, c2: Ctx)
    requires FixInv(Frame(Flip(dp), p, sib, Frame(dp, g, uncle, c2)), s)
    requires p.color == Red && !IsRed(uncle)
    ensures var d' := Flip(dp);
      RotateUp(d', Join(d', s, p, sib)) == Join(dp, Join(d', Child(s, dp), p, sib), s.x, Child(s, d'))
    ensures var d' := Flip(dp);
      FixInv(Frame(dp, s.x, Child(s, d'), Frame(dp, g, uncle, c2)), Join(d', Child(s, dp), p, sib))
  {
    var d' := Flip(dp);
    var c1 := Frame(dp, g, uncle, c2);
    FrameFacts(d', p, sib, c1, false, Bh(s));
    FrameFacts(dp, g, uncle, c2, true, Bh(s));
    JoinFacts(dp, Child(s, dp), s.x, Child(s, d'));
    var ps := Join(d', Child(s, dp), p, sib);
    JoinFacts(d', Child(s, dp), p, sib);
    FrameFacts(dp, s.x, Child(s, d'), c1, false, Bh(ps));
    FrameFacts(dp, s.x, Child(s, d'), c1, true, Bh(ps));
  }

  /** The zig-zag shape: current hangs on the other side of its parent than the parent of the grandparent. */
  predicate ZigZag(c: Ctx)
  {
    c != Top && c.up != Top && HoleDir(c) != HoleDir(c.up)
  }
}
