/**
  The differential fuzz check: build a tree from a byte string (its first
  byte as the root, then every byte inserted in turn, the first one again),
  validate the red-black invariants, and compare the in-order iteration with
  the bytes collected into an ordered set.
*/
module Fuzz {
  import opened Wrappers
  import opened Key
  import opened Shapes
  import opened Tree
  import opened Validation
  import CursorIteration
  import StackIteration

  newtype Byte = b: int | 0 <= b < 256

  /** The set of bytes in `data`, as integers. */
  ghost function ByteSet(data: seq<Byte>): set<int>
  {
    if |data| == 0 then {} else ByteSet(data[..|data| - 1]) + {data[|data| - 1] as int}
  }

  /** Adds `x` to a strictly increasing sequence, keeping it strictly increasing (one step of collecting into an ordered set). */
  function InsertSorted(s: seq<int>, x: int): (r: seq<int>)
    requires StrictlyIncreasing(s)
    ensures StrictlyIncreasing(r)
    ensures forall y :: y in r <==> y in s || y == x
    ensures |r| > 0 && (|s| > 0 ==> r[0] == s[0] || r[0] == x)
  {
    if |s| == 0 then [x]
    else if x < s[0] then [x] + s
    else if x == s[0] then s
    else
      var rest := InsertSorted(s[1..], x);
      assert forall y :: y in s[1..] ==> s[0] < y;
      [s[0]] + rest
  }

  /** The bytes of `data` collected into an ordered set, listed in ascending order. */
  function OrderedSet(data: seq<Byte>): (r: seq<int>)
    ensures StrictlyIncreasing(r)
    ensures forall y :: y in r <==> y in ByteSet(data)
  {
    if |data| == 0 then []
    else
      InsertSorted(OrderedSet(data[..|data| - 1]), data[|data| - 1] as int)
  }

  /** The head of a strictly increasing sequence is its least element. */
  lemma HeadLeast(a: seq<int>, y: int)
    requires StrictlyIncreasing(a) && y in a
    ensures |a| > 0 && a[0] <= y
  {
    var k :| 0 <= k < |a| && a[k] == y;
    assert k == 0 || a[0] < a[k];
  }

  /** A strictly increasing sequence is determined by its elements. */
  lemma {:induction false} IncreasingUnique(a: seq<int>, b: seq<int>)
    requires StrictlyIncreasing(a) && StrictlyIncreasing(b)
    requires forall y :: y in a <==> y in b
    ensures a == b
    decreases |a|
  {
    assert |a| > 0 ==> a[0] in a && a[0] in b;
    assert |b| > 0 ==> b[0] in b && b[0] in a;
    if |a| > 0 {
      HeadLeast(b, a[0]);
      HeadLeast(a, b[0]);
      forall y ensures y in a[1..] <==> y in b[1..] {
        if y in a[1..] {
          var j :| 0 <= j < |a[1..]| && a[1..][j] == y;
          assert a[j + 1] == y && a[0] < y;
          assert y in b;
        }
        if y in b[1..] {
          var j :| 0 <= j < |b[1..]| && b[1..][j] == y;
          assert b[j + 1] == y && b[0] < y;
          assert y in a;
        }
      }
      IncreasingUnique(a[1..], b[1..]);
      assert a == [a[0]] + a[1..] && b == [b[0]] + b[1..];
    }
  }

  /**
    `build_fuzz_tree`: none for empty input; otherwise a tree rooted at the
    first byte into which every byte, the first included, is inserted.
  */
  method BuildFuzzTree(data: seq<Byte>) returns (r: Option<RedBlackTreeSet>)
    requires |data| + 2 < USIZE_MAX
    ensures r.None? <==> |data| == 0
    ensures r.Some? ==> fresh(r.value) && r.value.Valid() && r.value.Elements() == ByteSet(data)
    ensures r.Some? ==> |r.value.store.nodes| <= |data|
  {
    if |data| == 0 {
      return None;
    }
    var tree := new RedBlackTreeSet.New(data[0] as int);
    var i := 0;
    while i < |data|
      invariant 0 <= i <= |data| && fresh(tree) && fresh(tree.store) && tree.Valid()
      invariant tree.Elements() == if i == 0 then {data[0] as int} else ByteSet(data[..i])
      invariant 1 <= |tree.store.nodes| <= i + 1 && (i > 0 ==> |tree.store.nodes| <= i)
    {
      var _ := tree.Insert(data[i] as int);
      assert data[..i + 1][..i] == data[..i];
      i := i + 1;
    }
    assert data[..i] == data;
    return Some(tree);
  }

  /**
    `fuzz_insert`: the tree built from `data` passes validation, and its
    iteration matches the ordered set of the bytes in length and element by
    element. The answer is whether every check held.
  */
  method FuzzInsert(data: seq<Byte>) returns (ok: bool)
    requires |data| + 2 < USIZE_MAX
    ensures ok
  {
    var built := BuildFuzzTree(data);
    if built.None? {
      return true;
    }
    var tree := built.value;
    if !ValidateConstraints(tree) {
      return false;
    }
    var it := new CursorIteration.Iter.Create(tree);
    var collected := CursorIteration.Collect(it);
    var expected := OrderedSet(data);
    OrderedInOrder(tree.shape);
    IncreasingUnique(collected, expected);
    if |expected| != |collected| {
      return false;
    }
    var i := 0;
    while i < |collected|
      invariant 0 <= i <= |collected| && collected == expected
    {
      if collected[i] != expected[i] {
        return false;
      }
      i := i + 1;
    }
    return true;
  }

  /** The tree of the `rotate_right` test: `new(15)`, then `insert(5)` and `insert(1)`. */
  method RotateRightTree() returns (tree: RedBlackTreeSet)
    ensures tree.Valid() && tree.Elements() == {1, 5, 15}
  {
    tree := new RedBlackTreeSet.New(15);
    var _ := tree.Insert(5);
    var _ := tree.Insert(1);
  }

  /** The `rotate_right` test: the tree validates and the stack iterator yields 1, 5, 15. */
  method RotateRightExample() returns (valid: bool, out: seq<int>)
    ensures valid && out == [1, 5, 15]
  {
    var tree := RotateRightTree();
    valid := ValidateConstraints(tree);
    var it := new StackIteration.Iter.IntoIter(tree);
    out := StackIteration.Collect(it);
    OrderedInOrder(tree.shape);
    assert StrictlyIncreasing([1, 5, 15]);
    IncreasingUnique(out, [1, 5, 15]);
  }
}
