/**
  The abstract view of one tree of the arena. A `Shape` is the tree that the
  parent/left/right links of the arena spell out from a root, with each
  node's index, colour and value copied into an `Entry`; a `Ctx` is a path
  from a hole back up to the root (a zipper), used to talk about one node
  together with everything around it.
*/
module Shapes {
  import opened Key
  import opened Nodes

  datatype Entry = Entry(key: nat, color: Color, value: int)

  datatype Shape = Nil | Br(left: Shape, x: Entry, right: Shape)

  /** The side of a parent on which a child hangs. */
  datatype Dir = L | R

  /**
    The context of a hole: `InLeft(x, sib, up)` says the hole is the left
    child of `x`, whose right subtree is `sib`; `InRight` is the mirror image.
  */
  datatype Ctx = Top | InLeft(x: Entry, sib: Shape, up: Ctx) | InRight(sib: Shape, x: Entry, up: Ctx)

  function Flip(d: Dir): Dir { if d == L then R else L }

  /** The child of `s` on side `d`. */
  function Child(s: Shape, d: Dir): Shape
    requires s.Br?
  {
    if d == L then s.left else s.right
  }

  /** The node `x` with `near` on side `d` and `far` on the other side. */
  function Join(d: Dir, near: Shape, x: Entry, far: Shape): (s: Shape)
    ensures s.Br? && s.x == x && Child(s, d) == near && Child(s, Flip(d)) == far
  {
    if d == L then Br(near, x, far) else Br(far, x, near)
  }

  /** The context whose hole is the child on side `d` of `x`. */
  function Frame(d: Dir, x: Entry, sib: Shape, up: Ctx): (c: Ctx)
    ensures c != Top && c.x == x && c.sib == sib && c.up == up && HoleDir(c) == d
  {
    if d == L then InLeft(x, sib, up) else assert d == R; InRight(sib, x, up)
  }

  /** The side on which the hole of a non-empty context hangs. */
  function HoleDir(c: Ctx): Dir
    requires c != Top
  {
    if c.InLeft? then L else R
  }

  /** Fills the hole of `c` with `s`. */
  function Plug(c: Ctx, s: Shape): Shape
    decreases c
  {
    match c
    case Top => s
    case InLeft(x, sib, up) => Plug(up, Br(s, x, sib))
    case InRight(sib, x, up) => Plug(up, Br(sib, x, s))
  }

  /** Plugging a different non-empty subtree into a non-empty context keeps the root entry. */
  lemma PlugTop(c: Ctx, s: Shape, t: Shape)
    requires c != Top || (s.Br? && t.Br?)
    ensures Plug(c, s).Br? && Plug(c, t).Br?
    ensures c == Top ==> Plug(c, t).x == t.x
    ensures c != Top ==> Plug(c, t).x == Plug(c, s).x
  {
    match c
    case Top =>
    case InLeft(x, sib, up) => PlugTop(up, Br(s, x, sib), Br(t, x, sib));
    case InRight(sib, x, up) => PlugTop(up, Br(sib, x, s), Br(sib, x, t));
  }

  lemma PlugFrame(d: Dir, x: Entry, sib: Shape, up: Ctx, s: Shape)
    ensures Plug(Frame(d, x, sib, up), s) == Plug(up, Join(d, s, x, sib))
  {
  }

  /** Regrouping a concatenation of four sequences. */
  lemma SeqAssoc(a: seq<int>, b: seq<int>, c: seq<int>, d: seq<int>)
    ensures a + (b + c + d) == a + b + c + d
  {
  }

  /** Moving the hole down to the child on side `d` leaves the whole tree as it was. */
  lemma PlugChild(c: Ctx, s: Shape, d: Dir)
    requires s.Br?
    ensures Plug(Frame(d, s.x, Child(s, Flip(d)), c), Child(s, d)) == Plug(c, s)
  {
    PlugFrame(d, s.x, Child(s, Flip(d)), c, Child(s, d));
    assert Join(d, Child(s, d), s.x, Child(s, Flip(d))) == s by { if d == L {} else {} }
  }

  function Depth(c: Ctx): nat
  {
    match c
    case Top => 0
    case InLeft(_, _, up) => 1 + Depth(up)
    case InRight(_, _, up) => 1 + Depth(up)
  }

  /** The arena index of the root of `s`, as a slot reference. */
  function TopKey(s: Shape): OptionKey
  {
    if s.Nil? then NoneKey() else OptionKey(s.x.key)
  }

  /** The slot reference that the root of a hole's subtree holds as its parent. */
  function HoleParent(c: Ctx): OptionKey
  {
    if c == Top then NoneKey() else OptionKey(c.x.key)
  }

  ghost function Keys(s: Shape): set<nat>
  {
    match s
    case Nil => {}
    case Br(l, x, r) => Keys(l) + {x.key} + Keys(r)
  }

  /** Keys of the nodes and sibling subtrees along a context. */
  ghost function CtxKeys(c: Ctx): set<nat>
  {
    match c
    case Top => {}
    case InLeft(x, sib, up) => {x.key} + Keys(sib) + CtxKeys(up)
    case InRight(sib, x, up) => {x.key} + Keys(sib) + CtxKeys(up)
  }

  ghost function Values(s: Shape): set<int>
  {
    match s
    case Nil => {}
    case Br(l, x, r) => Values(l) + {x.value} + Values(r)
  }

  /** The values of `s` in in-order sequence. */
  function InOrder(s: Shape): seq<int>
  {
    match s
    case Nil => []
    case Br(l, x, r) => InOrder(l) + [x.value] + InOrder(r)
  }

  /** In-order values of a context before its hole. */
  function Before(c: Ctx): seq<int>
  {
    match c
    case Top => []
    case InLeft(x, sib, up) => Before(up)
    case InRight(sib, x, up) => Before(up) + InOrder(sib) + [x.value]
  }

  /** In-order values of a context after its hole. */
  function After(c: Ctx): seq<int>
  {
    match c
    case Top => []
    case InLeft(x, sib, up) => [x.value] + InOrder(sib) + After(up)
    case InRight(sib, x, up) => After(up)
  }

  lemma {:induction false} InOrderPlug(c: Ctx, s: Shape)
    ensures InOrder(Plug(c, s)) == Before(c) + InOrder(s) + After(c)
    decreases c
  {
    match c
    case Top =>
    case InLeft(x, sib, up) =>
      InOrderPlug(up, Br(s, x, sib));
    case InRight(sib, x, up) =>
      InOrderPlug(up, Br(sib, x, s));
  }

  /** Binary-search-tree order: left values below the node's, right values above. */
  ghost predicate Ordered(s: Shape)
  {
    match s
    case Nil => true
    case Br(l, x, r) =>
      Ordered(l) && Ordered(r) &&
      (forall v :: v in Values(l) ==> v < x.value) &&
      (forall v :: v in Values(r) ==> x.value < v)
  }

  ghost predicate StrictlyIncreasing(s: seq<int>)
  {
    forall i, j :: 0 <= i < j < |s| ==> s[i] < s[j]
  }

  lemma {:induction false} InOrderValues(s: Shape)
    ensures forall v :: v in InOrder(s) <==> v in Values(s)
  {
    match s
    case Nil =>
    case Br(l, x, r) =>
      InOrderValues(l);
      InOrderValues(r);
  }

  /** Shapes with the same in-order sequence hold the same values. */
  lemma SameInOrderSameValues(s: Shape, t: Shape)
    requires InOrder(s) == InOrder(t)
    ensures Values(s) == Values(t)
  {
    InOrderValues(s);
    InOrderValues(t);
    forall v ensures v in Values(s) <==> v in Values(t) {
      assert v in InOrder(s) <==> v in InOrder(t);
    }
  }

  /** An ordered tree lists its values in strictly ascending order. */
  lemma {:induction false} OrderedInOrder(s: Shape)
    requires Ordered(s)
    ensures StrictlyIncreasing(InOrder(s))
    ensures forall v :: v in InOrder(s) <==> v in Values(s)
  {
    match s
    case Nil =>
    case Br(l, x, r) =>
      OrderedInOrder(l);
      OrderedInOrder(r);
      var a, b := InOrder(l), InOrder(r);
      var t := a + [x.value] + b;
      forall i, j | 0 <= i < j < |t| ensures t[i] < t[j] {
        if j < |a| {
        } else if i < |a| {
          assert t[i] in Values(l);
          if j > |a| { assert t[j] == b[j - |a| - 1]; assert t[j] in Values(r); }
        } else if i == |a| {
          assert t[j] == b[j - |a| - 1];
          assert t[j] in Values(r);
        } else {
          assert t[i] == b[i - |a| - 1] && t[j] == b[j - |a| - 1];
        }
      }
  }
}
