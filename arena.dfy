/**
  What a rotation and a recolouring do to the arena, stated against shapes:
  the writes a rotation performs turn the arena's spelling of a tree into the
  spelling of the rotated tree.
*/
module ArenaSteps {
  import opened Key
  import opened Nodes
  import opened Shapes
  import opened Linking
  import opened Rotation
  import opened RedBlack

  /**
    The arena `after` is `before` with the writes of a rotation at the root
    `x` of `s` lifting its child `y` on side `d`: `y` takes `x`'s parent and
    its place under it, `x` becomes `y`'s child on the other side and adopts
    `y`'s inner subtree `b`.
  */
  ghost predicate RotationWrites(before: seq<Node>, after: seq<Node>, c: Ctx, s: Shape, d: Dir)
    requires s.Br? && Child(s, d).Br?
  {
    var x := s.x.key;
    var y := Child(s, d).x.key;
    var b := Child(Child(s, d), Flip(d));
    |after| == |before| && x < |before| && y < |before| &&
    after[y] == SetChild(before[y], Flip(d), OptionKey(x)).(parent := HoleParent(c)) &&
    after[x] == SetChild(before[x], d, TopKey(b)).(parent := OptionKey(y)) &&
    (b.Br? ==> b.x.key < |before| && after[b.x.key] == before[b.x.key].(parent := OptionKey(x))) &&
    (c != Top ==> c.x.key < |before| && after[c.x.key] == SetChild(before[c.x.key], HoleDir(c), OptionKey(y))) &&
    forall i :: 0 <= i < |before| && i != x && i != y && (b.Br? ==> i != b.x.key) && (c != Top ==> i != c.x.key) ==>
      after[i] == before[i]
  }

  /** The writes of a rotation move links only: every node keeps its value. */
  lemma RotationKeepsValues(before: seq<Node>, after: seq<Node>, c: Ctx, s: Shape, d: Dir)
    requires s.Br? && Child(s, d).Br? && RotationWrites(before, after, c, s, d)
    ensures SameValues(before, after)
  {
    forall i | 0 <= i < |before| ensures after[i].value == before[i].value {
    }
  }

  /** Left rotation of `Br(a, x, Br(b, y, cc))` after its writes. */
  lemma RotateLeftSubtree(nodes: seq<Node>, nodes': seq<Node>, a: Shape, x: Entry, b: Shape, y: Entry, cc: Shape, p: OptionKey)
    requires Linked(nodes, Br(a, x, Br(b, y, cc)), p)
    requires x.key < |nodes'| && y.key < |nodes'| && y.key < |nodes|
    requires nodes'[y.key] == nodes[y.key].(left := OptionKey(x.key), parent := p)
    requires nodes'[x.key] == nodes[x.key].(right := TopKey(b), parent := OptionKey(y.key))
    requires b.Br? ==> b.x.key < |nodes| && b.x.key < |nodes'| && nodes'[b.x.key] == nodes[b.x.key].(parent := OptionKey(x.key))
    requires SameOn(nodes, nodes', Keys(a) + Keys(cc))
    requires b.Br? ==> SameOn(nodes, nodes', Keys(b) - {b.x.key})
    ensures Linked(nodes', Br(Br(a, x, b), y, cc), p)
  {
    SameOnSubset(nodes, nodes', Keys(a) + Keys(cc), Keys(a));
    SameOnSubset(nodes, nodes', Keys(a) + Keys(cc), Keys(cc));
    LinkedFrame(nodes, nodes', a, OptionKey(x.key));
    LinkedFrame(nodes, nodes', cc, OptionKey(y.key));
    if b.Br? {
      Reparent(nodes, nodes', b, OptionKey(y.key), OptionKey(x.key));
    }
    assert Linked(nodes', Br(a, x, b), OptionKey(y.key));
  }

  /** Right rotation of `Br(Br(cc, y, b), x, a)` after its writes. */
  lemma RotateRightSubtree(nodes: seq<Node>, nodes': seq<Node>, a: Shape, x: Entry, b: Shape, y: Entry, cc: Shape, p: OptionKey)
    requires Linked(nodes, Br(Br(cc, y, b), x, a), p)
    requires x.key < |nodes'| && y.key < |nodes'| && y.key < |nodes|
    requires nodes'[y.key] == nodes[y.key].(right := OptionKey(x.key), parent := p)
    requires nodes'[x.key] == nodes[x.key].(left := TopKey(b), parent := OptionKey(y.key))
    requires b.Br? ==> b.x.key < |nodes| && b.x.key < |nodes'| && nodes'[b.x.key] == nodes[b.x.key].(parent := OptionKey(x.key))
    requires SameOn(nodes, nodes', Keys(a) + Keys(cc))
    requires b.Br? ==> SameOn(nodes, nodes', Keys(b) - {b.x.key})
    ensures Linked(nodes', Br(cc, y, Br(b, x, a)), p)
  {
    SameOnSubset(nodes, nodes', Keys(a) + Keys(cc), Keys(a));
    SameOnSubset(nodes, nodes', Keys(a) + Keys(cc), Keys(cc));
    LinkedFrame(nodes, nodes', a, OptionKey(x.key));
    LinkedFrame(nodes, nodes', cc, OptionKey(y.key));
    if b.Br? {
      Reparent(nodes, nodes', b, OptionKey(y.key), OptionKey(x.key));
    }
    assert Linked(nodes', Br(b, x, a), OptionKey(y.key));
  }

  /** The indices a rotation writes: the two rotated nodes, the inner subtree's root and the parent above. */
  ghost function RotationKeys(c: Ctx, s: Shape, d: Dir): set<nat>
    requires s.Br? && Child(s, d).Br?
  {
    var b := Child(Child(s, d), Flip(d));
    {s.x.key, Child(s, d).x.key} + (if b.Br? then {b.x.key} else {}) + (if c != Top then {c.x.key} else {})
  }

  /** Indices of the arena away from the written ones keep their nodes. */
  lemma WritesMiss(nodes: seq<Node>, nodes': seq<Node>, c: Ctx, s: Shape, d: Dir, ks: set<nat>)
    requires s.Br? && Child(s, d).Br? && RotationWrites(nodes, nodes', c, s, d)
    requires ks !! RotationKeys(c, s, d) && forall k :: k in ks ==> k < |nodes|
    ensures SameOn(nodes, nodes', ks)
  {
    forall k | k in ks ensures k < |nodes'| && nodes'[k] == nodes[k] {
      assert k !in RotationKeys(c, s, d);
    }
  }

  /** The facts about a linked tree around a rotation site that the untouched-node lemmas share. */
  lemma RotationKeysApart(nodes: seq<Node>, c: Ctx, s: Shape, d: Dir)
    requires Linked(nodes, Plug(c, s), NoneKey())
    requires s.Br? && Child(s, d).Br?
    ensures var ys := Child(s, d);
      Linked(nodes, s, HoleParent(c)) && Linked(nodes, ys, OptionKey(s.x.key)) &&
      Keys(s) !! CtxKeys(c) && s.x.key !in Keys(ys) && s.x.key !in Keys(Child(s, Flip(d))) &&
      Keys(Child(s, Flip(d))) !! Keys(ys) &&
      Keys(ys) == Keys(Child(ys, Flip(d))) + {ys.x.key} + Keys(Child(ys, d)) &&
      Keys(s) == Keys(Child(s, Flip(d))) + {s.x.key} + Keys(ys) &&
      (forall k :: k in Keys(s) ==> k < |nodes|) && (forall k :: k in CtxKeys(c) ==> k < |nodes|)
  {
    PlugLinked(nodes, c, s);
    LinkedBounds(nodes, s, HoleParent(c));
    CtxLinkedBounds(nodes, c, TopKey(s));
    if d == L {} else {}
  }

  /** The rotation leaves the two outer subtrees alone. */
  lemma UntouchedOuter(nodes: seq<Node>, nodes': seq<Node>, c: Ctx, s: Shape, d: Dir)
    requires Linked(nodes, Plug(c, s), NoneKey())
    requires s.Br? && Child(s, d).Br?
    requires RotationWrites(nodes, nodes', c, s, d)
    ensures SameOn(nodes, nodes', Keys(Child(s, Flip(d))) + Keys(Child(Child(s, d), d)))
  {
    RotationKeysApart(nodes, c, s, d);
    var ys := Child(s, d);
    assert Linked(nodes, ys, OptionKey(s.x.key)) && ys.Br?;
    assert ys.x.key !in Keys(Child(ys, d)) && Keys(Child(ys, Flip(d))) !! Keys(Child(ys, d)) by { if d == L {} else {} }
    WritesMiss(nodes, nodes', c, s, d, Keys(Child(s, Flip(d))) + Keys(Child(ys, d)));
  }

  /** The rotation leaves the inner subtree alone below its root. */
  lemma UntouchedInner(nodes: seq<Node>, nodes': seq<Node>, c: Ctx, s: Shape, d: Dir)
    requires Linked(nodes, Plug(c, s), NoneKey())
    requires s.Br? && Child(s, d).Br?
    requires RotationWrites(nodes, nodes', c, s, d)
    ensures var b := Child(Child(s, d), Flip(d));
      b.Br? ==> SameOn(nodes, nodes', Keys(b) - {b.x.key})
  {
    RotationKeysApart(nodes, c, s, d);
    var ys := Child(s, d);
    var b := Child(ys, Flip(d));
    if b.Br? {
      assert ys.x.key !in Keys(b) && Keys(b) !! Keys(Child(ys, d)) by { if d == L {} else {} }
      WritesMiss(nodes, nodes', c, s, d, Keys(b) - {b.x.key});
    }
  }

  /** The rotation leaves the context alone above the parent. */
  lemma UntouchedAbove(nodes: seq<Node>, nodes': seq<Node>, c: Ctx, s: Shape, d: Dir)
    requires Linked(nodes, Plug(c, s), NoneKey())
    requires s.Br? && Child(s, d).Br?
    requires RotationWrites(nodes, nodes', c, s, d)
    ensures c != Top ==> SameOn(nodes, nodes', CtxKeys(c) - {c.x.key})
  {
    RotationKeysApart(nodes, c, s, d);
    if c != Top {
      assert Child(s, d).x.key in Keys(s);
      var b := Child(Child(s, d), Flip(d));
      assert b.Br? ==> b.x.key in Keys(s);
      WritesMiss(nodes, nodes', c, s, d, CtxKeys(c) - {c.x.key});
    }
  }

  /** The writes of a rotation leave every other node of the tree alone. */
  lemma RotationUntouched(nodes: seq<Node>, nodes': seq<Node>, c: Ctx, s: Shape, d: Dir)
    requires Linked(nodes, Plug(c, s), NoneKey())
    requires s.Br? && Child(s, d).Br?
    requires RotationWrites(nodes, nodes', c, s, d)
    ensures var ys := Child(s, d);
      SameOn(nodes, nodes', Keys(Child(s, Flip(d))) + Keys(Child(ys, d)))
    ensures var b := Child(Child(s, d), Flip(d));
      b.Br? ==> SameOn(nodes, nodes', Keys(b) - {b.x.key})
    ensures c != Top ==> SameOn(nodes, nodes', CtxKeys(c) - {c.x.key})
  {
    UntouchedOuter(nodes, nodes', c, s, d);
    UntouchedInner(nodes, nodes', c, s, d);
    UntouchedAbove(nodes, nodes', c, s, d);
  }

  lemma RotateLinked(nodes: seq<Node>, nodes': seq<Node>, c: Ctx, s: Shape, d: Dir)
    requires Linked(nodes, Plug(c, s), NoneKey())
    requires s.Br? && Child(s, d).Br?
    requires RotationWrites(nodes, nodes', c, s, d)
    ensures Linked(nodes', Plug(c, RotateUp(d, s)), NoneKey())
  {
    PlugLinked(nodes, c, s);
    RotationUntouched(nodes, nodes', c, s, d);
    var ys := Child(s, d);
    var a := Child(s, Flip(d));
    var b := Child(ys, Flip(d));
    var cc := Child(ys, d);
    if d == R {
      RotateLeftSubtree(nodes, nodes', a, s.x, b, ys.x, cc, HoleParent(c));
    } else {
      RotateRightSubtree(nodes, nodes', a, s.x, b, ys.x, cc, HoleParent(c));
    }
    var t := RotateUp(d, s);
    RotateInOrder(d, s);
    CtxLinkedFrame(nodes, nodes', c, OptionKey(s.x.key), OptionKey(ys.x.key));
    PlugLinked(nodes', c, t);
  }

  /** What the arena holds around a rotation site before the rotation. */
  lemma RotationSite(nodes: seq<Node>, c: Ctx, s: Shape, d: Dir)
    requires Linked(nodes, Plug(c, s), NoneKey()) && |nodes| < USIZE_MAX
    requires s.Br? && Child(s, d).Br?
    ensures var x, ys := s.x.key, Child(s, d);
      var y, b := ys.x.key, Child(ys, Flip(d));
      x < |nodes| && y < |nodes| && x != y &&
      nodes[x].parent == HoleParent(c) && ChildKey(nodes[x], d) == OptionKey(y) &&
      nodes[y].parent == OptionKey(x) && ChildKey(nodes[y], Flip(d)) == TopKey(b) &&
      (b.Br? ==> b.x.key < |nodes| && b.x.key != x && b.x.key != y && nodes[b.x.key].parent == OptionKey(y)) &&
      (c != Top ==>
         c.x.key < |nodes| && c.x.key != x && c.x.key != y && (b.Br? ==> c.x.key != b.x.key) &&
         ChildKey(nodes[c.x.key], HoleDir(c)) == OptionKey(x) &&
         ChildKey(nodes[c.x.key], Flip(HoleDir(c))) != OptionKey(x))
  {
    PlugLinked(nodes, c, s);
    var ys := Child(s, d);
    var b := Child(ys, Flip(d));
    assert Linked(nodes, ys, OptionKey(s.x.key)) by { if d == L {} else {} }
    assert ys.x.key !in Keys(b) && s.x.key !in Keys(ys) by { if d == L {} else {} }
    assert Keys(ys) == Keys(Child(ys, L)) + {ys.x.key} + Keys(Child(ys, R)) by { if d == L {} else {} }
    assert Keys(s) == Keys(Child(s, L)) + {s.x.key} + Keys(Child(s, R));
    if b.Br? {
      assert Linked(nodes, b, OptionKey(ys.x.key)) by { if d == L {} else {} }
    }
    if c != Top {
      HoleParentNode(nodes, c, OptionKey(s.x.key));
      assert c.x.key in CtxKeys(c);
      assert c.x.key !in Keys(c.sib);
      assert TopKey(c.sib) != OptionKey(s.x.key);
    }
  }

  /** A rotation's writes give the arena of the rotated tree, with the same indices and in-order values. */
  lemma RotateEffect(nodes: seq<Node>, nodes': seq<Node>, c: Ctx, s: Shape, d: Dir)
    requires Linked(nodes, Plug(c, s), NoneKey())
    requires s.Br? && Child(s, d).Br?
    requires RotationWrites(nodes, nodes', c, s, d)
    ensures Linked(nodes', Plug(c, RotateUp(d, s)), NoneKey())
    ensures InOrder(Plug(c, RotateUp(d, s))) == InOrder(Plug(c, s))
    ensures Keys(Plug(c, RotateUp(d, s))) == Keys(Plug(c, s))
    ensures |nodes'| == |nodes|
    ensures SameOutside(nodes, nodes', Keys(Plug(c, s)))
  {
    RotateLinked(nodes, nodes', c, s, d);
    RotateInOrder(d, s);
    InOrderPlug(c, s);
    InOrderPlug(c, RotateUp(d, s));
    KeysPlug(c, s);
    KeysPlug(c, RotateUp(d, s));
    var b := Child(Child(s, d), Flip(d));
    assert Keys(s) == Keys(Child(s, L)) + {s.x.key} + Keys(Child(s, R));
    assert Keys(Child(s, d)) == Keys(Child(Child(s, d), L)) + {Child(s, d).x.key} + Keys(Child(Child(s, d), R));
    assert b.Br? ==> b.x.key in Keys(b);
    assert b.Br? ==> b.x.key in Keys(s) by { if d == L {} else {} }
    assert c != Top ==> c.x.key in CtxKeys(c);
  }

  /** The writes of a rotation, in the order `rotate_left` and `rotate_right` perform them. */
  lemma RotationChain(n0: seq<Node>, n1: seq<Node>, n2: seq<Node>, n3: seq<Node>, n4: seq<Node>, c: Ctx, s: Shape, d: Dir)
    requires Linked(n0, Plug(c, s), NoneKey()) && |n0| < USIZE_MAX
    requires s.Br? && Child(s, d).Br?
    requires var x, y := s.x.key, Child(s, d).x.key;
      x < |n0| && y < |n0| &&
      n1 == n0[y := n0[y].(parent := n0[x].parent)]
    requires var y := Child(s, d).x.key;
      (c != Top ==> c.x.key < |n1| && n2 == n1[c.x.key := SetChild(n0[c.x.key], HoleDir(c), OptionKey(y))]) &&
      (c == Top ==> n2 == n1)
    requires var x, b := s.x.key, Child(Child(s, d), Flip(d));
      x < |n2| &&
      (b.Br? ==> b.x.key < |n0| && n3 == n2[x := SetChild(n0[x], d, TopKey(b))][b.x.key := n0[b.x.key].(parent := OptionKey(x))]) &&
      (b.Nil? ==> n3 == n2[x := SetChild(n0[x], d, TopKey(b))])
    requires var x, y, b := s.x.key, Child(s, d).x.key, Child(Child(s, d), Flip(d));
      y < |n3| && x < |n3| &&
      n4 == n3[y := SetChild(n0[y], Flip(d), OptionKey(x)).(parent := n0[x].parent)]
               [x := SetChild(n0[x], d, TopKey(b)).(parent := OptionKey(y))]
    ensures RotationWrites(n0, n4, c, s, d)
  {
    RotationSite(n0, c, s, d);
  }

  /** Recolouring the root of the subtree at a hole is recolouring that node of the whole tree. */
  lemma RecolorAt(nodes: seq<Node>, c: Ctx, s: Shape, col: Color)
    requires Linked(nodes, Plug(c, s), NoneKey()) && s.Br?
    ensures s.x.key < |nodes| && s.x.key in Keys(Plug(c, s))
    ensures Linked(nodes[s.x.key := nodes[s.x.key].(color := col)], Plug(c, Paint(s, col)), NoneKey())
    ensures InOrder(Plug(c, Paint(s, col))) == InOrder(Plug(c, s))
    ensures Keys(Plug(c, Paint(s, col))) == Keys(Plug(c, s))
    ensures Plug(c, Paint(s, col)).Br? && Plug(c, Paint(s, col)).x.key == Plug(c, s).x.key
  {
    var k := s.x.key;
    PlugLinked(nodes, c, s);
    var nodes' := nodes[k := nodes[k].(color := col)];
    var t := Paint(s, col);
    LinkedBounds(nodes, s, HoleParent(c));
    CtxLinkedBounds(nodes, c, TopKey(s));
    assert k in Keys(s);
    assert SameOn(nodes, nodes', Keys(s.left));
    assert SameOn(nodes, nodes', Keys(s.right));
    LinkedFrame(nodes, nodes', s.left, OptionKey(k));
    LinkedFrame(nodes, nodes', s.right, OptionKey(k));
    assert Linked(nodes', t, HoleParent(c));
    if c != Top {
      HoleParentNode(nodes, c, TopKey(s));
      assert c.x.key in CtxKeys(c);
      assert SetChild(nodes[c.x.key], HoleDir(c), TopKey(t)) == nodes[c.x.key];
      assert SameOn(nodes, nodes', CtxKeys(c) - {c.x.key});
    }
    CtxLinkedFrame(nodes, nodes', c, TopKey(s), TopKey(t));
    PlugLinked(nodes', c, t);
    InOrderPlug(c, s);
    InOrderPlug(c, t);
    KeysPlug(c, s);
    KeysPlug(c, t);
    PlugTop(c, s, t);
  }

  /**
    What the fixup loop reads around the current node `s`: its parent
    reference, the parent's colour and side, and, when there is a
    grandparent, its side and the uncle reference with the uncle's colour.
  */
  lemma FixSite(nodes: seq<Node>, c: Ctx, s: Shape)
    requires Linked(nodes, Plug(c, s), NoneKey()) && s.Br? && |nodes| < USIZE_MAX
    ensures s.x.key < |nodes| && nodes[s.x.key].parent == HoleParent(c)
    ensures c != Top ==>
      c.x.key < |nodes| && nodes[c.x.key].color == c.x.color &&
      nodes[c.x.key].parent == HoleParent(c.up) &&
      (nodes[c.x.key].IsRight(s.x.key) <==> HoleDir(c) == R)
    ensures c != Top && c.up != Top ==>
      c.up.x.key < |nodes| &&
      (nodes[c.up.x.key].IsRight(c.x.key) <==> HoleDir(c.up) == R) &&
      ChildKey(nodes[c.up.x.key], Flip(HoleDir(c.up))) == TopKey(c.up.sib) &&
      (c.up.sib.Br? ==> c.up.sib.x.key < |nodes| && nodes[c.up.sib.x.key].color == c.up.sib.x.color)
  {
    PlugLinked(nodes, c, s);
    assert Linked(nodes, s, HoleParent(c)) && CtxLinked(nodes, c, TopKey(s));
    assert s.x.key in Keys(s) && s.x.key !in CtxKeys(c);
    if c != Top {
      ParentSite(nodes, c, TopKey(s), s.x.key);
      if c.up != Top {
        assert CtxLinked(nodes, c.up, OptionKey(c.x.key)) && c.x.key !in CtxKeys(c.up);
        ParentSite(nodes, c.up, OptionKey(c.x.key), c.x.key);
      }
    }
  }

  /** The node above a hole whose root is `k`: its colour, parent and which side `k` hangs on. */
  lemma ParentSite(nodes: seq<Node>, c: Ctx, h: OptionKey, k: nat)
    requires CtxLinked(nodes, c, h) && c != Top && h == OptionKey(k) && |nodes| < USIZE_MAX
    requires k < |nodes| && k !in CtxKeys(c)
    ensures c.x.key < |nodes| && nodes[c.x.key].color == c.x.color
    ensures nodes[c.x.key].parent == HoleParent(c.up)
    ensures nodes[c.x.key].IsRight(k) <==> HoleDir(c) == R
    ensures ChildKey(nodes[c.x.key], Flip(HoleDir(c))) == TopKey(c.sib)
    ensures c.sib.Br? ==> c.sib.x.key < |nodes| && nodes[c.sib.x.key].color == c.sib.x.color
  {
    HoleParentNode(nodes, c, h);
    assert k !in Keys(c.sib);
    assert Linked(nodes, c.sib, OptionKey(c.x.key));
    LinkedBounds(nodes, c.sib, OptionKey(c.x.key));
  }

  /**
    The writes of an insertion: the empty slot at the hole of `c` is claimed
    for the next free index, where the new node is appended with the hole's
    parent as its parent.
  */
  lemma AttachLinked(nodes: seq<Node>, c: Ctx, e: Entry)
    requires Linked(nodes, Plug(c, Nil), NoneKey()) && c != Top && e.key == |nodes|
    ensures c.x.key < |nodes| && ChildKey(nodes[c.x.key], HoleDir(c)) == NoneKey()
    ensures Linked(nodes[c.x.key := SetChild(nodes[c.x.key], HoleDir(c), OptionKey(e.key))] +
                   [Node(e.value, e.color, OptionKey(c.x.key), NoneKey(), NoneKey())],
                   Plug(c, Br(Nil, e, Nil)), NoneKey())
    ensures Keys(Plug(c, Br(Nil, e, Nil))) == Keys(Plug(c, Nil)) + {e.key}
  {
    var leaf := Br(Nil, e, Nil);
    var p := c.x.key;
    PlugLinked(nodes, c, Nil);
    HoleParentNode(nodes, c, NoneKey());
    CtxLinkedBounds(nodes, c, NoneKey());
    var nodes' := nodes[p := SetChild(nodes[p], HoleDir(c), OptionKey(e.key))] +
                  [Node(e.value, e.color, OptionKey(p), NoneKey(), NoneKey())];
    assert SameOn(nodes, nodes', CtxKeys(c) - {p});
    CtxLinkedFrame(nodes, nodes', c, NoneKey(), OptionKey(e.key));
    assert Linked(nodes', leaf, HoleParent(c));
    assert e.key !in CtxKeys(c);
    PlugLinked(nodes', c, leaf);
    KeysPlug(c, Nil);
    KeysPlug(c, leaf);
  }
}
