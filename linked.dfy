/**
  How the arena spells out a shape: every node of the shape sits at its
  index with the shape's colour and value, its parent reference names the
  node above it and its child references name the roots of its subtrees.
  No index occurs twice.
*/
module Linking {
  import opened Wrappers
  import opened Key
  import opened Nodes
  import opened Shapes

  ghost predicate Linked(nodes: seq<Node>, s: Shape, p: OptionKey)
    decreases s
  {
    match s
    case Nil => true
    case Br(l, x, r) =>
      x.key < |nodes| &&
      nodes[x.key] == Node(x.value, x.color, p, TopKey(l), TopKey(r)) &&
      Linked(nodes, l, OptionKey(x.key)) && Linked(nodes, r, OptionKey(x.key)) &&
      x.key !in Keys(l) && x.key !in Keys(r) && Keys(l) !! Keys(r)
  }

  /** The context `c` is spelled out by the arena, its hole holding a subtree whose root reference is `h`. */
  ghost predicate CtxLinked(nodes: seq<Node>, c: Ctx, h: OptionKey)
    decreases c
  {
    match c
    case Top => true
    case InLeft(x, sib, up) =>
      x.key < |nodes| &&
      nodes[x.key] == Node(x.value, x.color, HoleParent(up), h, TopKey(sib)) &&
      Linked(nodes, sib, OptionKey(x.key)) && x.key !in Keys(sib) &&
      CtxLinked(nodes, up, OptionKey(x.key)) && ({x.key} + Keys(sib)) !! CtxKeys(up)
    case InRight(sib, x, up) =>
      x.key < |nodes| &&
      nodes[x.key] == Node(x.value, x.color, HoleParent(up), TopKey(sib), h) &&
      Linked(nodes, sib, OptionKey(x.key)) && x.key !in Keys(sib) &&
      CtxLinked(nodes, up, OptionKey(x.key)) && ({x.key} + Keys(sib)) !! CtxKeys(up)
  }

  /** A whole tree (root parent "none") splits into a hole's subtree and its context. */
  lemma {:induction false} PlugLinked(nodes: seq<Node>, c: Ctx, s: Shape)
    ensures Linked(nodes, Plug(c, s), NoneKey()) <==>
      Linked(nodes, s, HoleParent(c)) && CtxLinked(nodes, c, TopKey(s)) && Keys(s) !! CtxKeys(c)
    decreases c
  {
    match c
    case Top =>
    case InLeft(x, sib, up) =>
      PlugLinked(nodes, up, Br(s, x, sib));
    case InRight(sib, x, up) =>
      PlugLinked(nodes, up, Br(sib, x, s));
  }

  lemma {:induction false} KeysPlug(c: Ctx, s: Shape)
    ensures Keys(Plug(c, s)) == Keys(s) + CtxKeys(c)
    decreases c
  {
    match c
    case Top =>
    case InLeft(x, sib, up) =>
      KeysPlug(up, Br(s, x, sib));
    case InRight(sib, x, up) =>
      KeysPlug(up, Br(sib, x, s));
  }

  /** Every index of a linked shape is an index of the arena. */
  lemma {:induction false} LinkedBounds(nodes: seq<Node>, s: Shape, p: OptionKey)
    requires Linked(nodes, s, p)
    ensures forall k :: k in Keys(s) ==> k < |nodes|
  {
    match s
    case Nil =>
    case Br(l, x, r) =>
      LinkedBounds(nodes, l, OptionKey(x.key));
      LinkedBounds(nodes, r, OptionKey(x.key));
  }

  lemma {:induction false} CtxLinkedBounds(nodes: seq<Node>, c: Ctx, h: OptionKey)
    requires CtxLinked(nodes, c, h)
    ensures forall k :: k in CtxKeys(c) ==> k < |nodes|
  {
    match c
    case Top =>
    case InLeft(x, sib, up) =>
      LinkedBounds(nodes, sib, OptionKey(x.key));
      CtxLinkedBounds(nodes, up, OptionKey(x.key));
    case InRight(sib, x, up) =>
      LinkedBounds(nodes, sib, OptionKey(x.key));
      CtxLinkedBounds(nodes, up, OptionKey(x.key));
  }

  /** Nodes of `after` and `before` agree on every index of `ks`. */
  ghost predicate SameOn(before: seq<Node>, after: seq<Node>, ks: set<nat>)
  {
    forall k :: k in ks ==> k < |before| && k < |after| && after[k] == before[k]
  }

  /** `after` has the length of `before` and agrees with it outside `ks`. */
  ghost predicate SameOutside(before: seq<Node>, after: seq<Node>, ks: set<nat>)
  {
    |after| == |before| && forall i :: 0 <= i < |before| && i !in ks ==> after[i] == before[i]
  }

  /** `after` has the length of `before` and every node keeps its value; links and colours may differ. */
  ghost predicate SameValues(before: seq<Node>, after: seq<Node>)
  {
    |after| == |before| && forall i :: 0 <= i < |before| ==> after[i].value == before[i].value
  }

  lemma SameValuesTrans(a: seq<Node>, b: seq<Node>, c: seq<Node>)
    requires SameValues(a, b) && SameValues(b, c)
    ensures SameValues(a, c)
  {
  }

  /** The node at any index of a linked shape holds one of the shape's values. */
  lemma {:induction false} ValueIn(nodes: seq<Node>, s: Shape, p: OptionKey, k: nat)
    requires Linked(nodes, s, p) && k in Keys(s)
    ensures k < |nodes| && nodes[k].value in Values(s)
    decreases s
  {
    if k != s.x.key {
      if k in Keys(s.left) {
        ValueIn(nodes, s.left, OptionKey(s.x.key), k);
      } else {
        ValueIn(nodes, s.right, OptionKey(s.x.key), k);
      }
    }
  }

  /** In a linked search-ordered shape, no two indices hold the same value. */
  lemma {:induction false} UniqueKey(nodes: seq<Node>, s: Shape, p: OptionKey, k1: nat, k2: nat)
    requires Linked(nodes, s, p) && Ordered(s) && k1 in Keys(s) && k2 in Keys(s)
    requires k1 < |nodes| && k2 < |nodes| && nodes[k1].value == nodes[k2].value
    ensures k1 == k2
    decreases s
  {
    var x := s.x.key;
    var q := OptionKey(x);
    if k1 in Keys(s.left) {
      ValueIn(nodes, s.left, q, k1);
      if k2 in Keys(s.left) {
        UniqueKey(nodes, s.left, q, k1, k2);
      } else if k2 in Keys(s.right) {
        ValueIn(nodes, s.right, q, k2);
      }
    } else if k1 in Keys(s.right) {
      ValueIn(nodes, s.right, q, k1);
      if k2 in Keys(s.right) {
        UniqueKey(nodes, s.right, q, k1, k2);
      } else if k2 in Keys(s.left) {
        ValueIn(nodes, s.left, q, k2);
      }
    } else if k2 in Keys(s.left) {
      ValueIn(nodes, s.left, q, k2);
    } else if k2 in Keys(s.right) {
      ValueIn(nodes, s.right, q, k2);
    }
  }

  /**
    An arena grown by one rewritten slot `p` inside `ks` and one appended
    node, then changed only inside `ks` and the new index, still agrees with
    the original arena outside `ks` on the original indices.
  */
  lemma GrowOutside(n0: seq<Node>, n1: seq<Node>, n2: seq<Node>, ks: set<nat>, p: nat, node: Node, leaf: Node)
    requires p in ks && p < |n0| && n1 == n0[p := node] + [leaf]
    requires SameOutside(n1, n2, ks + {|n0|})
    ensures SameOutside(n0, n2[..|n0|], ks)
  {
    forall i | 0 <= i < |n0| && i !in ks
      ensures n2[..|n0|][i] == n0[i]
    {
      assert n1[i] == n0[i];
    }
  }

  /** Writes outside a linked shape do not disturb it. */
  lemma {:induction false} LinkedFrame(nodes: seq<Node>, nodes': seq<Node>, s: Shape, p: OptionKey)
    requires Linked(nodes, s, p)
    requires SameOn(nodes, nodes', Keys(s))
    ensures Linked(nodes', s, p)
  {
    match s
    case Nil =>
    case Br(l, x, r) =>
      LinkedFrame(nodes, nodes', l, OptionKey(x.key));
      LinkedFrame(nodes, nodes', r, OptionKey(x.key));
  }

  /** Changing only the parent reference of a subtree's root moves the subtree under a new parent. */
  lemma Reparent(nodes: seq<Node>, nodes': seq<Node>, s: Shape, p: OptionKey, p': OptionKey)
    requires Linked(nodes, s, p) && s.Br?
    requires s.x.key < |nodes'| && nodes'[s.x.key] == nodes[s.x.key].(parent := p')
    requires SameOn(nodes, nodes', Keys(s) - {s.x.key})
    ensures Linked(nodes', s, p')
  {
    LinkedFrame(nodes, nodes', s.left, OptionKey(s.x.key));
    LinkedFrame(nodes, nodes', s.right, OptionKey(s.x.key));
  }

  /** The node with a child reference replaced on side `d`. */
  function SetChild(n: Node, d: Dir, k: OptionKey): Node
  {
    if d == L then n.(left := k) else n.(right := k)
  }

  /** The child reference of `n` on side `d`. */
  function ChildKey(n: Node, d: Dir): OptionKey
  {
    if d == L then n.left else n.right
  }

  /**
    Writes outside a context, plus a new child reference `h'` at the hole's
    parent, keep the context linked around a hole whose root is `h'`.
  */
  lemma SameOnSubset(before: seq<Node>, after: seq<Node>, big: set<nat>, small: set<nat>)
    requires SameOn(before, after, big) && small <= big
    ensures SameOn(before, after, small)
  {
  }

  lemma {:induction false} CtxLinkedFrame(nodes: seq<Node>, nodes': seq<Node>, c: Ctx, h: OptionKey, h': OptionKey)
    requires CtxLinked(nodes, c, h)
    requires c != Top ==> SameOn(nodes, nodes', CtxKeys(c) - {c.x.key})
    requires c != Top ==> c.x.key < |nodes'| && nodes'[c.x.key] == SetChild(nodes[c.x.key], HoleDir(c), h')
    ensures CtxLinked(nodes', c, h')
    decreases c
  {
    if c != Top {
      var x, sib, up := c.x, c.sib, c.up;
      var rest := CtxKeys(c) - {x.key};
      assert CtxKeys(c) == {x.key} + Keys(sib) + CtxKeys(up);
      assert Linked(nodes, sib, OptionKey(x.key)) && x.key !in Keys(sib);
      assert CtxLinked(nodes, up, OptionKey(x.key)) && x.key !in CtxKeys(up);
      SameOnSubset(nodes, nodes', rest, Keys(sib));
      LinkedFrame(nodes, nodes', sib, OptionKey(x.key));
      if up != Top {
        HoleParentNode(nodes, up, OptionKey(x.key));
        assert up.x.key in rest;
        assert SetChild(nodes[up.x.key], HoleDir(up), OptionKey(x.key)) == nodes[up.x.key];
        SameOnSubset(nodes, nodes', rest, CtxKeys(up) - {up.x.key});
      }
      CtxLinkedFrame(nodes, nodes', up, OptionKey(x.key), OptionKey(x.key));
    }
  }

  /** In a linked context, the hole's parent holds `h` as its child on the hole's side. */
  lemma HoleParentNode(nodes: seq<Node>, c: Ctx, h: OptionKey)
    requires CtxLinked(nodes, c, h) && c != Top
    ensures c.x.key < |nodes| && ChildKey(nodes[c.x.key], HoleDir(c)) == h
    ensures ChildKey(nodes[c.x.key], Flip(HoleDir(c))) == TopKey(c.sib)
    ensures nodes[c.x.key].color == c.x.color && nodes[c.x.key].value == c.x.value
    ensures nodes[c.x.key].parent == HoleParent(c.up)
  {
  }

  /** The root entry of a linked shape is what the arena holds at its index. */
  lemma LinkedRoot(nodes: seq<Node>, s: Shape)
    requires Linked(nodes, s, NoneKey()) && s.Br?
    ensures s.x.key < |nodes| && nodes[s.x.key].color == s.x.color && nodes[s.x.key].value == s.x.value
  {
  }

  /** The node at the root of the subtree at a hole, as the arena holds it. */
  lemma SubtreeRoot(nodes: seq<Node>, c: Ctx, s: Shape)
    requires Linked(nodes, Plug(c, s), NoneKey()) && s.Br?
    ensures s.x.key < |nodes|
    ensures nodes[s.x.key] == Node(s.x.value, s.x.color, HoleParent(c), TopKey(s.left), TopKey(s.right))
  {
    PlugLinked(nodes, c, s);
  }

  /** The child reference on side `d` of the subtree at a hole: empty exactly when that child is. */
  lemma ChildSlot(nodes: seq<Node>, c: Ctx, s: Shape, d: Dir)
    requires Linked(nodes, Plug(c, s), NoneKey()) && s.Br? && |nodes| < USIZE_MAX
    ensures s.x.key < |nodes| && ChildKey(nodes[s.x.key], d) == TopKey(Child(s, d))
    ensures Child(s, d).Nil? <==> ChildKey(nodes[s.x.key], d).Get() == None
    ensures Child(s, d).Br? ==> ChildKey(nodes[s.x.key], d).Get() == Some(Child(s, d).x.key)
  {
    PlugLinked(nodes, c, s);
    if Child(s, d).Br? {
      assert Linked(nodes, Child(s, d), OptionKey(s.x.key)) by { if d == L {} else {} }
    }
  }
  /** The non-empty subtree `s` is spelled out by the arena under the parent its root records. */
  ghost predicate Hangs(nodes: seq<Node>, s: Shape)
  {
    s.Br? && s.x.key < |nodes| && Linked(nodes, s, nodes[s.x.key].parent)
  }

  /** Following a child reference of a hanging subtree: empty exactly at an absent child, else a hanging child. */
  lemma HangsChild(nodes: seq<Node>, s: Shape, d: Dir)
    requires Hangs(nodes, s) && |nodes| < USIZE_MAX
    ensures ChildKey(nodes[s.x.key], d) == TopKey(Child(s, d))
    ensures ChildKey(nodes[s.x.key], d).Get() == None <==> Child(s, d).Nil?
    ensures Child(s, d).Br? ==> ChildKey(nodes[s.x.key], d).Get() == Some(Child(s, d).x.key) && Hangs(nodes, Child(s, d))
  {
    var t := Child(s, d);
    assert Linked(nodes, t, OptionKey(s.x.key)) by { if d == L {} else {} }
    if t.Br? {
      assert t.x.key < |nodes|;
    }
  }

  /** The root of a whole linked tree hangs (its parent reference is empty). */
  lemma RootHangs(nodes: seq<Node>, s: Shape)
    requires Linked(nodes, s, NoneKey()) && s.Br?
    ensures Hangs(nodes, s) && nodes[s.x.key].parent == NoneKey()
  {
  }
}
