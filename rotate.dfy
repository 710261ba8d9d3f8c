/** Tree rotation on shapes, and what it preserves. */
module Rotation {
  import opened Shapes

  /**
    Rotation that lifts the child on side `d`: `RotateUp(R, _)` is a left
    rotation (the right child rises), `RotateUp(L, _)` a right rotation.
  */
  function RotateUp(d: Dir, s: Shape): (t: Shape)
    requires s.Br? && Child(s, d).Br?
    ensures t.Br? && t.x == Child(s, d).x
  {
    var y := Child(s, d);
    Join(d, Child(y, d), y.x, Join(d, Child(y, Flip(d)), s.x, Child(s, Flip(d))))
  }

  lemma JoinFlip(d: Dir, near: Shape, x: Entry, far: Shape)
    ensures Join(d, near, x, far) == Join(Flip(d), far, x, near)
  {
  }

  /** A rotation keeps the in-order sequence of values, hence the set of values, and the set of indices. */
  lemma RotateInOrder(d: Dir, s: Shape)
    requires s.Br? && Child(s, d).Br?
    ensures InOrder(RotateUp(d, s)) == InOrder(s)
    ensures Keys(RotateUp(d, s)) == Keys(s)
  {
    if d == L {
      var Br(Br(a, y, b), x, cc) := s;
      assert RotateUp(d, s) == Br(a, y, Br(b, x, cc));
      Regroup(a, y, b, x, cc);
    } else {
      var Br(a, x, Br(b, y, cc)) := s;
      assert RotateUp(d, s) == Br(Br(a, x, b), y, cc);
      Regroup(a, x, b, y, cc);
    }
  }

  /** The two ways of hanging three subtrees from two nodes spell the same in-order sequence and indices. */
  lemma Regroup(a: Shape, x: Entry, b: Shape, y: Entry, cc: Shape)
    ensures InOrder(Br(Br(a, x, b), y, cc)) == InOrder(Br(a, x, Br(b, y, cc)))
    ensures Keys(Br(Br(a, x, b), y, cc)) == Keys(Br(a, x, Br(b, y, cc)))
  {
    var A, B, C := InOrder(a), InOrder(b), InOrder(cc);
    assert (A + [x.value] + B) + [y.value] + C == A + [x.value] + (B + [y.value] + C);
  }

  lemma {:induction false} IncreasingSlices(a: seq<int>, m: int, b: seq<int>)
    requires StrictlyIncreasing(a + [m] + b)
    ensures StrictlyIncreasing(a) && StrictlyIncreasing(b)
    ensures forall v :: v in a ==> v < m
    ensures forall v :: v in b ==> m < v
  {
    var t := a + [m] + b;
    forall i, j | 0 <= i < j < |b| ensures b[i] < b[j] {
      assert b[i] == t[|a| + 1 + i] && b[j] == t[|a| + 1 + j];
    }
    forall v | v in a ensures v < m {
      var i :| 0 <= i < |a| && a[i] == v;
      assert t[i] == v && t[|a|] == m;
    }
    forall v | v in b ensures m < v {
      var i :| 0 <= i < |b| && b[i] == v;
      assert t[|a| + 1 + i] == v && t[|a|] == m;
    }
    forall i, j | 0 <= i < j < |a| ensures a[i] < a[j] {
      assert a[i] == t[i] && a[j] == t[j];
    }
  }

  /** Order is exactly strictly ascending in-order values. */
  lemma {:induction false} IncreasingOrdered(s: Shape)
    requires StrictlyIncreasing(InOrder(s))
    ensures Ordered(s)
  {
    match s
    case Nil =>
    case Br(l, x, r) =>
      IncreasingSlices(InOrder(l), x.value, InOrder(r));
      IncreasingOrdered(l);
      IncreasingOrdered(r);
      InOrderValues(l);
      InOrderValues(r);
  }

  /** A rotation keeps a search tree ordered. */
  lemma RotateOrdered(d: Dir, s: Shape)
    requires s.Br? && Child(s, d).Br? && Ordered(s)
    ensures Ordered(RotateUp(d, s)) && Values(RotateUp(d, s)) == Values(s)
  {
    RotateInOrder(d, s);
    OrderedInOrder(s);
    IncreasingOrdered(RotateUp(d, s));
    InOrderValues(s);
    InOrderValues(RotateUp(d, s));
  }
}
