/**
  The search descent of an insertion on shapes: the value being inserted
  stays bracketed between the in-order values left and right of the hole,
  so hanging it as a leaf in the empty slot reached keeps the tree ordered.
*/
module Insertion {
  import opened Shapes
  import opened Rotation

  /** Every in-order value before the hole of `c` is below `v`, every one after it above. */
  ghost predicate Bracket(c: Ctx, v: int)
  {
    (forall w :: w in Before(c) ==> w < v) && (forall w :: w in After(c) ==> v < w)
  }

  /** A subtree of an ordered tree is ordered. */
  lemma {:induction false} OrderedSub(c: Ctx, s: Shape)
    requires Ordered(Plug(c, s))
    ensures Ordered(s)
    decreases c
  {
    match c
    case Top =>
    case InLeft(x, sib, up) => OrderedSub(up, Br(s, x, sib));
    case InRight(sib, x, up) => OrderedSub(up, Br(sib, x, s));
  }

  /** The whole tree's value set splits at any hole. */
  lemma ValuesPlug(c: Ctx, s: Shape)
    ensures forall w :: w in Values(Plug(c, s)) <==> w in Before(c) || w in Values(s) || w in After(c)
  {
    InOrderPlug(c, s);
    InOrderValues(Plug(c, s));
    InOrderValues(s);
  }

  /**
    One step of the descent: moving from `s` to its child on side `d`, as
    the comparison with `s`'s value directs, keeps `v` bracketed.
  */
  lemma DescendStep(c: Ctx, s: Shape, v: int, d: Dir)
    requires s.Br? && Ordered(Plug(c, s)) && Bracket(c, v)
    requires d == R ==> s.x.value < v
    requires d == L ==> v < s.x.value
    ensures Plug(Frame(d, s.x, Child(s, Flip(d)), c), Child(s, d)) == Plug(c, s)
    ensures Bracket(Frame(d, s.x, Child(s, Flip(d)), c), v)
  {
    OrderedSub(c, s);
    var c' := Frame(d, s.x, Child(s, Flip(d)), c);
    InOrderValues(s.left);
    InOrderValues(s.right);
    if d == R {
      assert c' == InRight(s.left, s.x, c);
      assert Before(c') == Before(c) + InOrder(s.left) + [s.x.value];
    } else {
      assert c' == InLeft(s.x, s.right, c);
      assert After(c') == [s.x.value] + InOrder(s.right) + After(c);
    }
  }

  lemma {:induction false} InsertIncreasing(a: seq<int>, v: int, b: seq<int>)
    requires StrictlyIncreasing(a + b)
    requires forall w :: w in a ==> w < v
    requires forall w :: w in b ==> v < w
    ensures StrictlyIncreasing(a + [v] + b)
  {
    var t, u := a + [v] + b, a + b;
    forall i, j | 0 <= i < j < |t| ensures t[i] < t[j] {
      if j < |a| {
        assert t[i] == u[i] && t[j] == u[j];
      } else if i > |a| {
        assert t[i] == u[i - 1] && t[j] == u[j - 1];
      } else if i < |a| && j == |a| {
        assert t[i] == a[i] && a[i] in a && t[j] == v;
      } else if i < |a| {
        assert t[i] == u[i] && t[j] == u[j - 1];
      } else {
        assert t[i] == v && t[j] == b[j - |a| - 1] && b[j - |a| - 1] in b;
      }
    }
  }

  /**
    Hanging a leaf holding a bracketed `v` into the empty slot at the hole of
    an ordered tree gives an ordered tree with one more value, `v`, which was
    not there before.
  */
  lemma InsertLeaf(c: Ctx, v: int, e: Entry)
    requires Ordered(Plug(c, Nil)) && Bracket(c, v) && e.value == v
    ensures Ordered(Plug(c, Br(Nil, e, Nil)))
    ensures v !in Values(Plug(c, Nil))
    ensures Values(Plug(c, Br(Nil, e, Nil))) == Values(Plug(c, Nil)) + {v}
  {
    var leaf := Br(Nil, e, Nil);
    InOrderPlug(c, Nil);
    InOrderPlug(c, leaf);
    OrderedInOrder(Plug(c, Nil));
    assert InOrder(leaf) == [v];
    assert InOrder(Plug(c, Nil)) == Before(c) + After(c);
    InsertIncreasing(Before(c), v, After(c));
    IncreasingOrdered(Plug(c, leaf));
    LeafValues(c, e);
  }

  lemma LeafValues(c: Ctx, e: Entry)
    requires Bracket(c, e.value)
    ensures e.value !in Values(Plug(c, Nil))
    ensures Values(Plug(c, Br(Nil, e, Nil))) == Values(Plug(c, Nil)) + {e.value}
  {
    ValuesPlug(c, Nil);
    ValuesPlug(c, Br(Nil, e, Nil));
    assert Values(Br(Nil, e, Nil)) == {e.value};
    assert e.value !in Before(c) && e.value !in After(c);
    forall w ensures w in Values(Plug(c, Br(Nil, e, Nil))) <==> w in Values(Plug(c, Nil)) + {e.value} {
    }
  }
}
