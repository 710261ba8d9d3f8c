/**
  The tree engine: a red-black ordered set of integers whose nodes live in an
  arena (`VecStorage`) and refer to each other by index. Insertion descends
  from the root, appends a Red node, and repairs the red-black invariants by
  recolouring and rotating; lookup descends the same way.
*/
module Tree {
  import opened Wrappers
  import opened Key
  import opened Nodes
  import opened Storage
  import opened Shapes
  import opened Linking
  import opened Rotation
  import opened RedBlack
  import opened ArenaSteps
  import opened Insertion

  datatype Ordering = Less | Equal | Greater

  class RedBlackTreeSet {
    /** The arena; several trees may share one (see `SharedVecStorage`). */
    const store: VecStorage
    var root: nat
    /** The tree the arena spells out from `root`. */
    ghost var shape: Shape

    /** The arena spells out `shape` from `root`, and stays below the sentinel index. */
    ghost predicate Linkage()
      reads this, store
    {
      |store.nodes| < USIZE_MAX && shape.Br? && shape.x.key == root &&
      Linked(store.nodes, shape, NoneKey())
    }

    /** Links consistent, values in search-tree order, red-black invariants. */
    ghost predicate Valid()
      reads this, store
    {
      Linkage() && Ordered(shape) && RedBlackTree(shape)
    }

    /** The set the tree stands for. */
    ghost function Elements(): set<int>
      reads this
    {
      Values(shape)
    }

    /** Arena indices that belong to this tree. */
    ghost function Footprint(): set<nat>
      reads this
    {
      Keys(shape)
    }

    /** `RedBlackTreeSet::new(value)`: an owned arena holding one Black root. */
    constructor New(v: int)
      ensures Valid() && fresh(store)
      ensures root == 0 && store.nodes == [RootNode(v)] && Elements() == {v}
    {
      store := new VecStorage.NewWith(v);
      root := 0;
      ghost var sh := Br(Nil, Entry(0, Black, v), Nil);
      assert Values(sh) == {v} && RedOk(sh) && Balanced(sh);
      shape := sh;
    }

    /** A tree handle over an existing arena whose node `r` is a lone Black root. */
    constructor Over(s: VecStorage, r: nat)
      requires r < |s.nodes| < USIZE_MAX
      requires s.nodes[r] == RootNode(s.nodes[r].value)
      ensures Valid() && store == s && root == r
      ensures Elements() == {s.nodes[r].value} && Footprint() == {r}
    {
      store := s;
      root := r;
      ghost var sh := Br(Nil, Entry(r, Black, s.nodes[r].value), Nil);
      assert Values(sh) == {s.nodes[r].value} && Keys(sh) == {r} && RedOk(sh) && Balanced(sh);
      shape := sh;
    }

    /** Compares the value at arena index `i` with `v`. */
    function CompareNodeValue(i: nat, v: int): (o: Ordering)
      reads this, store
      requires i < |store.nodes|
      ensures o == Less <==> store.nodes[i].value < v
      ensures o == Equal <==> store.nodes[i].value == v
    {
      var w := store.Get(i).value;
      if w < v then Less else if w == v then Equal else Greater
    }

    /**
      `rotate_left`: the right child `y` of node `x` takes `x`'s place (under
      `x`'s parent, or as the root) and `x` becomes `y`'s left child. In the
      shape this is `RotateUp(R, _)` at the hole of `c`.
    */
    method RotateLeft(x: nat, ghost c: Ctx, ghost s: Shape)
      requires Linkage() && shape == Plug(c, s)
      requires s.Br? && s.x.key == x && s.right.Br?
      modifies this, store
      ensures Linkage() && shape == Plug(c, RotateUp(R, s))
      ensures root == if c == Top then s.right.x.key else old(root)
      ensures InOrder(shape) == old(InOrder(shape)) && Footprint() == old(Footprint())
      ensures |store.nodes| == old(|store.nodes|) && SameValues(old(store.nodes), store.nodes)
      ensures SameOutside(old(store.nodes), store.nodes, Footprint())
    {
      ghost var n0 := store.nodes;
      RotationSite(n0, c, s, R);
      RelinkRotated(x, R, c, s);
      RotationKeepsValues(n0, store.nodes, c, s, R);
      RotateEffect(n0, store.nodes, c, s, R);
      PlugTop(c, s, RotateUp(R, s));
      shape := Plug(c, RotateUp(R, s));
    }

    /**
      `rotate_right`: the left child `y` of node `x` takes `x`'s place and `x`
      becomes `y`'s right child; `RotateUp(L, _)` at the hole of `c`.
    */
    method RotateRight(x: nat, ghost c: Ctx, ghost s: Shape)
      requires Linkage() && shape == Plug(c, s)
      requires s.Br? && s.x.key == x && s.left.Br?
      modifies this, store
      ensures Linkage() && shape == Plug(c, RotateUp(L, s))
      ensures root == if c == Top then s.left.x.key else old(root)
      ensures InOrder(shape) == old(InOrder(shape)) && Footprint() == old(Footprint())
      ensures |store.nodes| == old(|store.nodes|) && SameValues(old(store.nodes), store.nodes)
      ensures SameOutside(old(store.nodes), store.nodes, Footprint())
    {
      ghost var n0 := store.nodes;
      RotationSite(n0, c, s, L);
      RelinkRotated(x, L, c, s);
      RotationKeepsValues(n0, store.nodes, c, s, L);
      RotateEffect(n0, store.nodes, c, s, L);
      PlugTop(c, s, RotateUp(L, s));
      shape := Plug(c, RotateUp(L, s));
    }

    /**
      The six writes both rotations share, with `d` the side of the child
      that rises: that child takes over `x`'s parent (or the root slot), `x`
      adopts the child's inner subtree, and `x` hangs below the child.
    */
    method RelinkRotated(x: nat, d: Dir, ghost c: Ctx, ghost s: Shape)
      requires Linkage() && shape == Plug(c, s)
      requires s.Br? && s.x.key == x && Child(s, d).Br?
      modifies this, store
      ensures shape == old(shape)
      ensures RotationWrites(old(store.nodes), store.nodes, c, s, d)
      ensures root == if c == Top then Child(s, d).x.key else old(root)
    {
      ghost var n0 := store.nodes;
      RotationSite(n0, c, s, d);
      var nx := store.Get(x);
      var y := ChildKey(nx, d).Unwrap();
      var ny := store.Get(y);
      var xp := nx.parent.Get();
      var inner := ChildKey(ny, Flip(d)).Get();

      ghost var b := Child(Child(s, d), Flip(d));
      assert y == Child(s, d).x.key && ChildKey(ny, Flip(d)) == TopKey(b) && nx.parent == HoleParent(c);
      store.Write(y, ny.(parent := nx.parent));
      ghost var n1 := store.nodes;
      if xp.Some? {
        var pn := store.Get(xp.value);
        assert pn == n0[c.x.key];
        if ChildKey(pn, Flip(d)).Get() == Some(x) {
          assert HoleDir(c) == Flip(d);
          store.Write(xp.value, SetChild(pn, Flip(d), NewKey(y)));
        } else {
          assert HoleDir(c) == d;
          store.Write(xp.value, SetChild(pn, d, NewKey(y)));
        }
      } else {
        root := y;
      }
      assert c != Top ==> store.nodes == n1[c.x.key := SetChild(n0[c.x.key], HoleDir(c), OptionKey(y))];
      assert c == Top ==> store.nodes == n1;
      ghost var n2 := store.nodes;
      store.Write(x, SetChild(nx, d, ChildKey(ny, Flip(d))));
      if inner.Some? {
        store.Write(inner.value, store.Get(inner.value).(parent := NewKey(x)));
      }
      ghost var n3 := store.nodes;
      store.Write(y, SetChild(ny, Flip(d), NewKey(x)).(parent := nx.parent));
      store.Write(x, SetChild(nx, d, ChildKey(ny, Flip(d))).(parent := NewKey(y)));
      RotationChain(n0, n1, n2, n3, store.nodes, c, s, d);
    }

    /** `get_mut(k).color = col` on the root `k` of the subtree at the hole of `c`. */
    method SetColor(k: nat, col: Color, ghost c: Ctx, ghost s: Shape)
      requires Linkage() && shape == Plug(c, s) && s.Br? && s.x.key == k
      modifies this, store
      ensures Linkage() && shape == Plug(c, Paint(s, col)) && root == old(root)
      ensures InOrder(shape) == old(InOrder(shape)) && Footprint() == old(Footprint())
      ensures k < |old(store.nodes)| && store.nodes == old(store.nodes)[k := old(store.nodes)[k].(color := col)]
      ensures k in Footprint() && |store.nodes| == old(|store.nodes|) && SameValues(old(store.nodes), store.nodes)
      ensures SameOutside(old(store.nodes), store.nodes, Footprint())
    {
      RecolorAt(store.nodes, c, s, col);
      store.Write(k, store.Get(k).(color := col));
      shape := Plug(c, Paint(s, col));
    }

    /**
      `insert_fixup`: starting from the freshly linked Red node, repairs the
      red-black invariants bottom-up. A Red uncle is handled by recolouring
      and moving up two levels; a Black or absent uncle by one or two
      rotations. Finally the root is painted Black.
    */
    method InsertFixup(node0: nat, ghost c0: Ctx, ghost s0: Shape)
      requires Linkage() && shape == Plug(c0, s0) && s0.Br? && s0.x.key == node0
      requires FixInv(c0, s0)
      modifies this, store
      ensures Linkage() && RedBlackTree(shape) && store.nodes[root].color == Black
      ensures InOrder(shape) == old(InOrder(shape)) && Footprint() == old(Footprint())
      ensures |store.nodes| == old(|store.nodes|) && SameValues(old(store.nodes), store.nodes)
      ensures SameOutside(old(store.nodes), store.nodes, Footprint())
    {
      var node := node0;
      ghost var c, sub := c0, s0;
      while true
        invariant Linkage() && shape == Plug(c, sub) && sub.Br? && sub.x.key == node
        invariant FixInv(c, sub)
        invariant InOrder(shape) == old(InOrder(shape)) && Footprint() == old(Footprint())
        invariant |store.nodes| == old(|store.nodes|) && SameValues(old(store.nodes), store.nodes)
        invariant SameOutside(old(store.nodes), store.nodes, Footprint())
        decreases Depth(c), if ZigZag(c) then 1 else 0
      {
        FixSite(store.nodes, c, sub);
        var pk := store.Get(node).parent.Get();
        if pk.None? {
          break;
        }
        var parent := pk.value;
        if store.Get(parent).color == Black {
          FixDoneBlackParent(c, sub);
          break;
        }
        ghost var before := store.nodes;
        node, c, sub := FixRedParent(node, parent, c, sub);
        SameValuesTrans(old(store.nodes), before, store.nodes);
      }
      ghost var t := shape;
      if c == Top {
        FixDoneAtRoot(sub);
      }
      ghost var before := store.nodes;
      SetColor(root, Black, Top, t);
      SameValuesTrans(old(store.nodes), before, store.nodes);
      LinkedRoot(store.nodes, shape);
    }

    /**
      The Red-uncle case of `insert_fixup`: parent and uncle turn Black and
      the grandparent Red, three colour writes and nothing else.
    */
    method RecolorCase(parent: nat, uncleIdx: nat, grand: nat, ghost dn: Dir, ghost dp: Dir, ghost sub: Shape,
                       ghost p: Entry, ghost sib: Shape, ghost g: Entry, ghost uncle: Shape, ghost c2: Ctx)
      requires Linkage() && shape == Plug(c2, Grand(dn, dp, sub, p, sib, g, uncle))
      requires p.key == parent && g.key == grand && uncle.Br? && uncle.x.key == uncleIdx
      modifies this, store
      ensures Linkage() && shape == Plug(c2, Grand(dn, dp, sub, p.(color := Black), sib, g.(color := Red), Paint(uncle, Black)))
      ensures InOrder(shape) == old(InOrder(shape)) && Footprint() == old(Footprint())
      ensures |store.nodes| == old(|store.nodes|) && SameValues(old(store.nodes), store.nodes)
      ensures SameOutside(old(store.nodes), store.nodes, Footprint())
    {
      ghost var n0 := store.nodes;
      PlugFrame(dp, g, uncle, c2, Join(dn, sub, p, sib));
      SetColor(parent, Black, Frame(dp, g, uncle, c2), Join(dn, sub, p, sib));
      ghost var n1 := store.nodes;
      ghost var pB := Join(dn, sub, p.(color := Black), sib);
      PlugFrame(dp, g, uncle, c2, pB);
      JoinFlip(dp, pB, g, uncle);
      PlugFrame(Flip(dp), g, pB, c2, uncle);
      SetColor(uncleIdx, Black, Frame(Flip(dp), g, pB, c2), uncle);
      SameValuesTrans(n0, n1, store.nodes);
      ghost var n2 := store.nodes;
      ghost var uB := Paint(uncle, Black);
      PlugFrame(Flip(dp), g, pB, c2, uB);
      JoinFlip(dp, pB, g, uB);
      SetColor(grand, Red, c2, Join(dp, pB, g, uB));
      SameValuesTrans(n0, n2, store.nodes);
    }

    /**
      The Black-uncle case of `insert_fixup` with parent and node on the same
      side `d`: parent Black, grandparent Red, then the grandparent is
      rotated so that the parent takes its place.
    */
    method StraightCase(parentIndex: nat, grand: nat, d: Dir, ghost sub: Shape,
                        ghost p: Entry, ghost sib: Shape, ghost g: Entry, ghost uncle: Shape, ghost c2: Ctx)
      requires Linkage() && shape == Plug(c2, Grand(d, d, sub, p, sib, g, uncle))
      requires p.key == parentIndex && g.key == grand
      modifies this, store
      ensures Linkage() && shape == Plug(c2, Join(d, sub, p.(color := Black), Join(d, sib, g.(color := Red), uncle)))
      ensures InOrder(shape) == old(InOrder(shape)) && Footprint() == old(Footprint())
      ensures |store.nodes| == old(|store.nodes|) && SameValues(old(store.nodes), store.nodes)
      ensures SameOutside(old(store.nodes), store.nodes, Footprint())
    {
      ghost var n0 := store.nodes;
      PlugFrame(d, g, uncle, c2, Join(d, sub, p, sib));
      SetColor(parentIndex, Black, Frame(d, g, uncle, c2), Join(d, sub, p, sib));
      ghost var n1 := store.nodes;
      ghost var pB := Join(d, sub, p.(color := Black), sib);
      PlugFrame(d, g, uncle, c2, pB);
      SetColor(grand, Red, c2, Join(d, pB, g, uncle));
      SameValuesTrans(n0, n1, store.nodes);
      ghost var n2 := store.nodes;
      ghost var gs := Grand(d, d, sub, p.(color := Black), sib, g.(color := Red), uncle);
      assert RotateUp(d, gs) == Join(d, sub, p.(color := Black), Join(d, sib, g.(color := Red), uncle));
      if d == R {
        RotateLeft(grand, c2, gs);
      } else {
        RotateRight(grand, c2, gs);
      }
      SameValuesTrans(n0, n2, store.nodes);
    }

    /**
      The Black-uncle case of `insert_fixup` with the node on the inner side
      of its parent `p`, whose own side is `d`: the parent is rotated so that
      the node takes its place.
    */
    method BendCase(parent: nat, d: Dir, ghost sub: Shape, ghost p: Entry, ghost sib: Shape, ghost c1: Ctx)
      requires Linkage() && shape == Plug(c1, Join(Flip(d), sub, p, sib)) && sub.Br? && p.key == parent
      modifies this, store
      ensures Linkage() && shape == Plug(c1, Join(d, Join(Flip(d), Child(sub, d), p, sib), sub.x, Child(sub, Flip(d))))
      ensures InOrder(shape) == old(InOrder(shape)) && Footprint() == old(Footprint())
      ensures |store.nodes| == old(|store.nodes|) && SameValues(old(store.nodes), store.nodes)
      ensures SameOutside(old(store.nodes), store.nodes, Footprint())
    {
      ghost var ps := Join(Flip(d), sub, p, sib);
      assert RotateUp(Flip(d), ps) == Join(d, Join(Flip(d), Child(sub, d), p, sib), sub.x, Child(sub, Flip(d)));
      if d == R {
        RotateRight(parent, c1, ps);
      } else {
        RotateLeft(parent, c1, ps);
      }
    }

    /**
      The part of one `insert_fixup` iteration after the parent of `node`
      was found Red: the grandparent and uncle are read, and the Red-uncle,
      straight or bent case is applied. Returns the next node to look at and
      its place in the new shape, with the fixup invariant re-established
      one step closer to the root.
    */
    method FixRedParent(node: nat, parent: nat, ghost c: Ctx, ghost sub: Shape)
      returns (node': nat, ghost c': Ctx, ghost sub': Shape)
      requires Linkage() && shape == Plug(c, sub) && sub.Br? && sub.x.key == node
      requires FixInv(c, sub) && c != Top && c.x.key == parent && c.x.color == Red
      modifies this, store
      ensures Linkage() && shape == Plug(c', sub') && sub'.Br? && sub'.x.key == node'
      ensures FixInv(c', sub')
      ensures Depth(c') < Depth(c) || (Depth(c') == Depth(c) && ZigZag(c) && !ZigZag(c'))
      ensures InOrder(shape) == old(InOrder(shape)) && Footprint() == old(Footprint())
      ensures SameValues(old(store.nodes), store.nodes)
      ensures SameOutside(old(store.nodes), store.nodes, Footprint())
    {
      FixSite(store.nodes, c, sub);
      RedParentHasBlackGrandparent(c, sub);
      var grand := store.Get(parent).parent.Unwrap();
      var parentIsRight := store.Get(grand).IsRight(parent);
      var uncleKey := if !parentIsRight then store.Get(grand).right else store.Get(grand).left;
      ghost var dn, dp := HoleDir(c), HoleDir(c.up);
      ghost var p, sib, g, uncle, c2 := c.x, c.sib, c.up.x, c.up.sib, c.up.up;
      assert c.up == Frame(dp, g, uncle, c2);
      assert c == Frame(dn, p, sib, c.up);
      PlugFrame(dn, p, sib, c.up, sub);
      var u := uncleKey.Get();
      if u.Some? && store.Get(u.value).color == Red {
        FixUncleRed(dn, dp, sub, p, sib, g, uncle, c2);
        RecolorCase(parent, u.value, grand, dn, dp, sub, p, sib, g, uncle, c2);
        node' := grand;
        assert Depth(c) == Depth(c2) + 2;
        c', sub' := c2, Grand(dn, dp, sub, p.(color := Black), sib, g.(color := Red), Paint(uncle, Black));
        return;
      }
      var nodeIsRight := store.Get(parent).IsRight(node);
      if parentIsRight == nodeIsRight {
        // (true, true) rotates the grandparent left, (false, false) right.
        FixStraight(dp, sub, p, sib, g, uncle, c2);
        var parentIndex := store.Get(node).parent.Unwrap();
        var side := if parentIsRight then R else L;
        StraightCase(parentIndex, grand, side, sub, p, sib, g, uncle, c2);
        ghost var top := Join(dp, sib, g.(color := Red), uncle);
        PlugFrame(dp, p.(color := Black), top, c2, sub);
        assert Depth(c) == Depth(c2) + 2;
        node', c', sub' := node, Frame(dp, p.(color := Black), top, c2), sub;
      } else {
        // (true, false) rotates the parent right, (false, true) left.
        FixZigZag(dp, sub, p, sib, g, uncle, c2);
        node' := parent;
        var side := if parentIsRight then R else L;
        BendCase(parent, side, sub, p, sib, c.up);
        ghost var low := Join(dn, Child(sub, dp), p, sib);
        PlugFrame(dp, sub.x, Child(sub, dn), c.up, low);
        c', sub' := Frame(dp, sub.x, Child(sub, dn), c.up), low;
      }
    }

    /**
      `insert`: adds `v` unless an equal value is stored. On a duplicate it
      returns the index of the node holding `v` and changes nothing;
      otherwise it returns the new node's index, the arena length before
      the call, and the tree is again a valid red-black search tree with
      `v` added. Nodes outside the tree are not touched.
    */
    method Insert(v: int) returns (idx: nat)
      requires Valid() && |store.nodes| + 1 < USIZE_MAX
      modifies this, store
      ensures Valid()
      ensures v in old(Elements()) ==>
        store.nodes == old(store.nodes) && root == old(root) && shape == old(shape) &&
        idx in Footprint() && idx < |store.nodes| && store.nodes[idx].value == v
      ensures v !in old(Elements()) ==>
        idx == old(|store.nodes|) && |store.nodes| == idx + 1 && store.nodes[idx].value == v &&
        Elements() == old(Elements()) + {v} && Footprint() == old(Footprint()) + {idx}
      ensures SameOutside(old(store.nodes), store.nodes[..old(|store.nodes|)], old(Footprint()))
    {
      var found: bool;
      ghost var c: Ctx;
      found, idx, c := Descend(v);
      if found {
        return;
      }
      ghost var n0, t0 := old(store.nodes), old(shape);
      ghost var n1, attached := store.nodes, shape;
      assert Keys(attached) == Keys(t0) + {idx} && c.x.key in Keys(t0) && c.x.key < |n0|;
      OrderedInOrder(attached);
      assert n1[idx].value == v;
      InsertFixup(idx, c, Br(Nil, Entry(idx, Red, v), Nil));
      IncreasingOrdered(shape);
      SameInOrderSameValues(attached, shape);
      GrowOutside(n0, n1, store.nodes, Keys(t0), c.x.key,
        SetChild(n0[c.x.key], HoleDir(c), OptionKey(idx)), Node(v, Red, OptionKey(c.x.key), NoneKey(), NoneKey()));
    }

    /**
      `find`: descends from the root by comparison and answers the index of
      the node holding `v`, or none on reaching an absent child.
    */
    method Find(v: int) returns (r: Option<nat>)
      requires Linkage() && Ordered(shape)
      ensures r.Some? <==> v in Elements()
      ensures r.Some? ==> r.value in Footprint() && r.value < |store.nodes| && store.nodes[r.value].value == v
      ensures forall k :: k in Footprint() && k < |store.nodes| ==> (store.nodes[k].value == v <==> r == Some(k))
    {
      var current := root;
      ghost var c, sub := Top, shape;
      while true
        invariant shape == Plug(c, sub) && sub.Br? && sub.x.key == current && Bracket(c, v)
        decreases sub
      {
        SubtreeRoot(store.nodes, c, sub);
        var o := CompareNodeValue(current, v);
        if o == Equal {
          ValuesPlug(c, sub);
          KeysPlug(c, sub);
          forall k | k in Footprint() && k < |store.nodes| && store.nodes[k].value == v ensures k == current {
            UniqueKey(store.nodes, shape, NoneKey(), k, current);
          }
          return Some(current);
        }
        var side := if o == Less then R else L;
        DescendStep(c, sub, v, side);
        ChildSlot(store.nodes, c, sub, side);
        var next := if o == Less then store.Get(current).right.Get() else store.Get(current).left.Get();
        c, sub := Frame(side, sub.x, Child(sub, Flip(side)), c), Child(sub, side);
        if next.None? {
          LeafValues(c, Entry(0, Red, v));
          forall k | k in Footprint() && k < |store.nodes| ensures store.nodes[k].value != v {
            ValueIn(store.nodes, shape, NoneKey(), k);
          }
          return None;
        }
        current := next.value;
      }
    }

    /**
      The descent and attachment half of `insert`: walks from the root,
      going right while the node's value is below `v` and left while above,
      stops on an equal value, and otherwise claims the empty child slot it
      reaches for the next free index and appends a Red leaf there.
    */
    method Descend(v: int) returns (found: bool, idx: nat, ghost c: Ctx)
      requires Valid() && |store.nodes| + 1 < USIZE_MAX
      modifies this, store
      ensures found <==> v in old(Elements())
      ensures found ==>
        store.nodes == old(store.nodes) && root == old(root) && shape == old(shape) && Valid() &&
        idx in Footprint() && idx < |store.nodes| && store.nodes[idx].value == v
      ensures !found ==>
        idx == old(|store.nodes|) && root == old(root) && Linkage() &&
        LeafAttached(old(store.nodes), old(shape), c, v, store.nodes, shape) &&
        (HoleDir(c) == R <==> old(store.nodes)[c.x.key].value < v)
    {
      idx := store.Len();
      var current := root;
      ghost var sub := shape;
      c := Top;
      var parent: nat;
      var side: Dir;
      while true
        invariant store.nodes == old(store.nodes) && shape == old(shape) && root == old(root)
        invariant shape == Plug(c, sub) && sub.Br? && sub.x.key == current && Bracket(c, v)
        decreases sub
      {
        SubtreeRoot(store.nodes, c, sub);
        var o := CompareNodeValue(current, v);
        if o == Equal {
          ValuesPlug(c, sub);
          found := true;
          idx := current;
          KeysPlug(c, sub);
          return;
        }
        var cur := store.Get(current);
        side := if o == Less then R else L;
        DescendStep(c, sub, v, side);
        var slot := if o == Less then cur.right else cur.left;
        var claim := slot.InsertIfNone(idx);
        ChildSlot(store.nodes, c, sub, side);
        if claim.0 {
          store.Write(current, SetChild(cur, side, claim.1));
          parent := current;
          break;
        }
        current := slot.Unwrap();
        c, sub := Frame(side, sub.x, Child(sub, Flip(side)), c), Child(sub, side);
      }
      KeysPlug(c, sub);
      assert sub.x.key in Keys(sub);
      c := Frame(side, sub.x, Child(sub, Flip(side)), c);
      ghost var n0, t0 := old(store.nodes), old(shape);
      ghost var n1 := n0[c.x.key := SetChild(n0[c.x.key], HoleDir(c), OptionKey(idx))] +
                      [Node(v, Red, OptionKey(c.x.key), NoneKey(), NoneKey())];
      ghost var t1 := Plug(c, Br(Nil, Entry(idx, Red, v), Nil));
      assert store.nodes + [Node(v, Red, NewKey(parent), NoneKey(), NoneKey())] == n1;
      AttachFacts(n0, c, v);
      assert LeafAttached(n0, t0, c, v, n1, t1);
      store.Push(Node(v, Red, NewKey(parent), NoneKey(), NoneKey()));
      found := false;
      shape := t1;
      assert store.nodes == n1;
    }
  }

  /**
    Insertion followed by lookup: `find(v)` answers the index that
    `insert(v)` returned, whether `v` was new or already present.
  */
  method InsertThenFind(t: RedBlackTreeSet, v: int) returns (idx: nat, r: Option<nat>)
    requires t.Valid() && |t.store.nodes| + 1 < USIZE_MAX
    modifies t, t.store
    ensures t.Valid() && v in t.Elements() && r == Some(idx)
  {
    idx := t.Insert(v);
    r := t.Find(v);
  }

  /**
    The arena `nodes` and shape `t` after `insert` hung a Red leaf holding `v`
    into the empty slot below context `c` of the tree `t0` stored in `n0`: the
    parent's child key names the next free index, the leaf is appended there
    with the parent as its parent, and the extended tree is linked, ordered,
    ready for the fixup, and holds exactly one more value and one more index.
  */
  ghost predicate LeafAttached(n0: seq<Node>, t0: Shape, c: Ctx, v: int, nodes: seq<Node>, t: Shape)
  {
    c != Top && t0 == Plug(c, Nil) && t0.Br? && c.x.key in Keys(t0) && c.x.key < |n0| &&
    nodes == n0[c.x.key := SetChild(n0[c.x.key], HoleDir(c), OptionKey(|n0|))] +
             [Node(v, Red, OptionKey(c.x.key), NoneKey(), NoneKey())] &&
    t == Plug(c, Br(Nil, Entry(|n0|, Red, v), Nil)) && t.Br? && t.x.key == t0.x.key &&
    Linked(nodes, t, NoneKey()) && Ordered(t) && FixInv(c, Br(Nil, Entry(|n0|, Red, v), Nil)) &&
    v !in Values(t0) && Values(t) == Values(t0) + {v} && Keys(t) == Keys(t0) + {|n0|}
  }

  /** Attaching a Red leaf at an empty slot of a valid tree whose ancestors bracket its value. */
  lemma AttachFacts(nodes: seq<Node>, c: Ctx, v: int)
    requires Linked(nodes, Plug(c, Nil), NoneKey()) && Ordered(Plug(c, Nil)) && RedBlackTree(Plug(c, Nil))
    requires c != Top && Bracket(c, v)
    ensures c.x.key < |nodes|
    ensures LeafAttached(nodes, Plug(c, Nil), c, v,
      nodes[c.x.key := SetChild(nodes[c.x.key], HoleDir(c), OptionKey(|nodes|))] +
      [Node(v, Red, OptionKey(c.x.key), NoneKey(), NoneKey())],
      Plug(c, Br(Nil, Entry(|nodes|, Red, v), Nil)))
  {
    var e := Entry(|nodes|, Red, v);
    AttachLinked(nodes, c, e);
    InsertLeaf(c, v, e);
    FixStart(c, e);
    PlugTop(c, Nil, Br(Nil, e, Nil));
    KeysPlug(c, Nil);
    assert c.x.key in Keys(Plug(c, Nil));
  }
}
