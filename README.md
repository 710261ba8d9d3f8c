# vec-multi-tree: a red-black ordered set in a node arena

This project models, in Dafny, the core of `vec-multi-tree`. That library is
a red-black tree set whose nodes live in a growable vector (the arena). Nodes
refer to their parent and children by arena index, and `usize::MAX` means "no
node". One arena may be owned by a single tree (`VecStorage`) or shared by
several independently rooted trees (`SharedVecStorage`). Insertion descends
from the root by comparison. It appends a Red leaf and repairs the red-black
invariants by recolouring and rotating. Lookup descends the same way. Two
iterators walk the tree in order: one keeps a stack of indices, the other a
single cursor that climbs parent links. A fuzz check builds a tree from bytes,
validates it, and compares its iteration with the bytes collected into an
ordered set.

The values are mathematical integers, standing in for the source's `T: Ord`.
The arena is a class holding a `seq<Node>`. Every write through `get_mut`
reassigns one element, and `push` appends.

Each tree keeps a ghost `shape`: the binary tree that the arena's links spell
out from `root`, with each node's index, colour and value. The predicate
`Linked` ties the arena to the shape, parent links included. Ordering,
red-black balance, in-order sequence and element set are all stated on the
shape. A zipper context (`Ctx`) names the position of one node within the
whole tree. The descent, the fixup loop, the rotations and both iterators
carry it as ghost state.

Modules, in dependency order:

- `Wrappers`: `Option`.
- `Key`: `OptionKey`, the sentinel-encoded optional index.
- `Nodes`: `Color`, `Node`.
- `Storage`: `VecStorage`.
- `Shapes`, `Linking`, `Rotation`, `RedBlack`, `ArenaSteps`, `Insertion`: the
  abstract tree, the link invariant, rotation and red-black facts, and the
  arena effects of rotating, recolouring and attaching a leaf.
- `Tree`: `RedBlackTreeSet`, with `new`, `insert`, `insert_fixup`, the
  rotations, `compare_node_value` and `find`.
- `StackIteration`: the stack iterator of the single-file version.
- `CursorIteration`: the cursor iterator of `iter.rs`.
- `Validation`: `validate_constraints` and `black_count`.
- `SharedStorage`: `SharedVecStorage`.
- `Fuzz`: `build_fuzz_tree`, `fuzz_insert`, and the `rotate_right` example.

## Model

| member | source | states |
|---|---|---|
| `Key.OptionKey.Get` | src/key.rs:38-44 | answers none exactly for the sentinel word; a present index is never the sentinel, and it is the word the reference holds |
| `Key.OptionKey.Unwrap` | src/key.rs:58-61 | on a present reference, the index it holds is the one `get` answers |
| `Key.OptionKey.InsertIfNone` | src/key.rs:47-55 | claims the reference exactly when it was empty, and then it holds `x`; a present reference is left unchanged |
| `Key.OptionKey.Is` | src/key.rs:19-23 | comparison with a plain index holds exactly when `get` answers that index |
| `Key.NoneKey` | src/key.rs:27-29 | the empty reference is the `usize::MAX` word, and `get` of it is none |
| `Key.NewKey` | src/key.rs:32-35 | a present reference holds `x`, differs from the empty one, and `get` of it answers `x` |
| `Key.DefaultKey` | src/key.rs:63-67 | the default reference is empty |
| `Key.NewGetUnwrap` | src/key.rs:32-61 | round trip: `get` and `unwrap` of `new(x)` give back `x`; `get` of the empty reference is none |
| `Key.InsertIfNoneCases` | src/key.rs:47-55 | `insert_if_none` on the empty reference sets it to `x`; on a present one it answers false and changes nothing |
| `Nodes.Node.IsRight` | src/node.rs:21-25 | holds exactly when `k` is the node's right child; false without a right child |
| `Nodes.FromValue` | src/node.rs:27-37 | `Node::from` is a Red node holding the value, with no parent and no children |
| `Nodes.RootNode` | src/storage/owned.rs:12-16 | a root node is `from(value)` recoloured Black, unlinked |
| `Storage.VecStorage.Empty` | src/storage/owned.rs:8-10 | the new arena is empty |
| `Storage.VecStorage.NewWith` | src/storage/owned.rs:12-16 | the new arena holds one Black, unlinked node with the value |
| `Storage.VecStorage.Len` | src/storage/owned.rs:25-27 | the number of nodes over every tree of the arena |
| `Storage.VecStorage.Push` | src/storage/owned.rs:29-31 | the node lands at the old length, and every earlier node stays at its index |
| `Storage.VecStorage.Get` | src/storage/owned.rs:52-63 | answers a node of the arena for an issued index |
| `Storage.VecStorage.Write` | src/storage/owned.rs:64-76 | a write through `get_mut` replaces node `i` and nothing else |
| `Shapes.InOrderPlug` | src/lib.rs:253-300 | the in-order sequence of a whole tree is what lies before a position, then the subtree there, then what lies after |
| `Shapes.OrderedInOrder` | src/lib.rs:62-105 | a search-ordered tree lists its values strictly increasing in order, and lists exactly its values |
| `Shapes.SameInOrderSameValues` | src/lib.rs:107-171 | two trees with the same in-order sequence hold the same values |
| `Linking.PlugLinked` | src/lib.rs:177-228 | the arena spells out a whole tree exactly when it spells out the subtree at a position and the context around it, joined through the parent link |
| `Linking.UniqueKey` | src/lib.rs:93-97 | because an equal value is never inserted twice, no two nodes of an ordered, linked tree hold the same value |
| `Linking.GrowOutside` | src/lib.rs:62-105 | claiming a child slot and appending a node leave every other node of the old arena as it was |
| `Rotation.RotateInOrder` | src/lib.rs:177-228 | a rotation keeps the in-order sequence and the set of nodes |
| `Rotation.RotateOrdered` | src/lib.rs:177-228 | a rotation keeps search order and the element set |
| `Rotation.IncreasingOrdered` | src/lib.rs:107-171 | a tree whose in-order sequence is strictly increasing is search-ordered |
| `RedBlack.RedOkPlug` | src/lib.rs:107-171 | no Red node has a Red child in the whole tree exactly when that holds in the subtree, in the context, and at the joint |
| `RedBlack.BalancedPlug` | src/lib.rs:107-171 | the whole tree is black-balanced exactly when the subtree is, and the context is, given the subtree's black height |
| `RedBlack.FixStart` | src/lib.rs:101-102 | a Red leaf hung into an empty slot of a red-black tree satisfies the fixup invariant |
| `RedBlack.FixDoneAtRoot` | src/lib.rs:169-170 | when the loop reaches the root, painting the root Black gives a red-black tree |
| `RedBlack.FixDoneBlackParent` | src/lib.rs:116-119 | when the parent is Black, the tree is already red-black and its root Black |
| `RedBlack.RedParentHasBlackGrandparent` | src/lib.rs:121-122 | a Red parent is never the root, and its parent is Black |
| `RedBlack.FixUncleRed` | src/lib.rs:131-141 | recolouring parent and uncle Black and the grandparent Red keeps the fixup invariant, with the grandparent as the current node |
| `RedBlack.FixStraight` | src/lib.rs:145-166 | in the straight case, recolouring and one rotation at the grandparent yield the stated shape, and the fixup invariant holds with the node now under its parent, which is Black and in the grandparent's old place |
| `RedBlack.FixZigZag` | src/lib.rs:152-159 | in the bent case, a rotation at the parent yields the stated shape, and the fixup invariant holds with the former parent as the current node, now on the outer side |
| `ArenaSteps.RotateEffect` | src/lib.rs:177-228 | the six link writes of a rotation make the arena spell out the rotated tree, with the same in-order sequence and nodes, and no node outside the tree changes |
| `ArenaSteps.RotationKeepsValues` | src/lib.rs:177-228 | the writes of a rotation move links only: every node keeps its value |
| `ArenaSteps.RecolorAt` | src/lib.rs:136-138 | recolouring one node makes the arena spell out the repainted tree, with order and nodes unchanged |
| `ArenaSteps.AttachLinked` | src/lib.rs:77-101 | writing the new index into an empty child slot and appending a leaf with that parent makes the arena spell out the tree with the leaf added |
| `Insertion.InsertLeaf` | src/lib.rs:62-105 | hanging a value into the empty slot that the descent reaches keeps search order and adds exactly that value, which was absent |
| `Insertion.DescendStep` | src/lib.rs:76-92 | stepping right on a smaller node value, or left on a larger one, keeps `v` within the bounds of the new position |
| `Tree.RedBlackTreeSet.New` | src/lib.rs:55-60 | a valid tree of one Black root at index 0 holding the value |
| `Tree.RedBlackTreeSet.Over` | src/storage/shared.rs:29 | a tree handle over an existing arena whose node `r` is a lone Black root: valid, with that one element and that one node |
| `Tree.RedBlackTreeSet.CompareNodeValue` | src/lib.rs:173-175 | less exactly when the node's value is below `v`, equal exactly when it is `v` |
| `Tree.RedBlackTreeSet.RotateLeft` | src/lib.rs:177-202 | the arena spells out the tree with the right child rotated up at `x`; in-order sequence and nodes are kept, the root moves when `x` was the root, and nothing outside the tree changes |
| `Tree.RedBlackTreeSet.RotateRight` | src/lib.rs:204-228 | the mirror image of `RotateLeft`: the left child rises |
| `Tree.RedBlackTreeSet.RelinkRotated` | src/lib.rs:177-228 | the relinking both rotations share: the rising child takes `x`'s parent and its slot there (or the root), `x` adopts the child's inner subtree and hangs below the child, and no other node changes |
| `Tree.RedBlackTreeSet.SetColor` | src/lib.rs:136-138 | one colour write: the arena spells out the repainted tree, and exactly that node changes |
| `Tree.RedBlackTreeSet.RecolorCase` | src/lib.rs:131-141 | the Red-uncle branch paints parent and uncle Black and the grandparent Red, and changes nothing else |
| `Tree.RedBlackTreeSet.StraightCase` | src/lib.rs:146-165 | the outer-side branches paint parent Black and grandparent Red, then rotate the grandparent so that the parent takes its place |
| `Tree.RedBlackTreeSet.BendCase` | src/lib.rs:152-159 | the inner-side branches rotate the parent so that the node takes its place |
| `Tree.RedBlackTreeSet.FixRedParent` | src/lib.rs:121-166 | one loop iteration under a Red parent restores the fixup invariant closer to the root, or turns a bent case into a straight one |
| `Tree.RedBlackTreeSet.InsertFixup` | src/lib.rs:107-171 | from a Red node that breaks at most the red-red rule, the tree ends red-black with a Black root, the same in-order sequence and the same nodes; every node keeps its value |
| `Tree.RedBlackTreeSet.Descend` | src/lib.rs:62-100 | finds `v` exactly when it is in the set, and then changes nothing; otherwise it claims the empty slot that search order leads to and appends a Red leaf there |
| `Tree.RedBlackTreeSet.Insert` | src/lib.rs:62-105 | the tree stays a valid red-black search tree; a present value gives its node's index and changes nothing; a new value gets the old arena length as its index, the node there holds `v`, and the set grows by exactly `v`; no node outside the tree changes |
| `Tree.RedBlackTreeSet.Find` | src/lib.rs:234-250 | answers an index exactly when `v` is in the set; the node there holds `v`, and no other node of the tree does |
| `Tree.InsertThenFind` | src/lib.rs:234-250 | after `insert(v)`, `find(v)` answers the index that `insert` returned, whether `v` was new or present |
| `Tree.AttachFacts` | src/lib.rs:77-101 | attaching a Red leaf at the slot the descent reached gives a linked, ordered tree satisfying the fixup invariant, with the set and nodes grown by one |
| `StackIteration.PendingDescend` | src/lib.rs:268-275 | pushing a node and going left keeps the total of what is still owed |
| `StackIteration.Iter.IntoIter` | src/lib.rs:263-278 | after the left spine is pushed, the iterator owes the whole tree in order |
| `StackIteration.Iter.Next` | src/lib.rs:284-299 | yields the first owed value and then owes the rest; once nothing is owed it yields none |
| `StackIteration.Collect` | src/lib.rs:350 | draining the iterator yields exactly the owed values, in order |
| `CursorIteration.Iter.Create` | src/iter.rs:17-28 | the cursor lands on the leftmost node, and the iterator owes the whole tree in order |
| `CursorIteration.Iter.Next` | src/iter.rs:37-68 | yields the first owed value and then owes the rest; the cursor moves to the leftmost node of the right subtree, or else to the nearest ancestor the node lies left of, or to none |
| `CursorIteration.Collect` | src/fuzz.rs:58 | draining the iterator yields exactly the owed values, in order |
| `Validation.BlackCount` | src/fuzz.rs:14-29 | as written: a count means no Red node sits under a Red one; on a red-black subtree the count is its black height |
| `Validation.CheckedBlackCount` | src/fuzz.rs:14-29 | corrected: a count is answered exactly when the subtree has no red-red pair and is black-balanced, and it is the black height |
| `Validation.ValidateConstraints` | src/fuzz.rs:9-13 | as written: passing implies a Black root and no red-red pair; every red-black tree passes |
| `Validation.CheckedValidateConstraints` | src/fuzz.rs:9-13 | corrected: passes exactly on red-black trees |
| `Validation.LoneBlackChildPasses` | src/fuzz.rs:18-28 | a linked tree that is not black-balanced passes the check as written, with count 2, and fails the corrected one |
| `SharedStorage.SiblingKept` | src/storage/shared.rs:23-30 | a tree whose nodes were left alone by another tree's writes is still spelled out by the shared arena |
| `SharedStorage.SharedVecStorage.New` | src/storage/shared.rs:17-21 | the shared arena starts empty |
| `SharedStorage.SharedVecStorage.AddTree` | src/storage/shared.rs:23-30 | appends one Black root holding the value, and hands out a valid one-element tree rooted at the old length over the same arena |
| `SharedStorage.SharedVecStorage.Len` | src/storage/shared.rs:38-40 | forwards to the inner arena |
| `SharedStorage.SharedVecStorage.Push` | src/storage/shared.rs:42-44 | forwards the append to the inner arena |
| `SharedStorage.SharedVecStorage.Get` | src/storage/shared.rs:61-63 | forwards the read to the inner arena |
| `SharedStorage.SharedVecStorage.Write` | src/storage/shared.rs:65-67 | forwards the write to the inner arena |
| `SharedStorage.AddTwo` | src/storage/shared.rs:23-30 | two trees added to one arena have increasing roots, disjoint nodes, and are both valid |
| `SharedStorage.InsertBeside` | src/storage/shared.rs:42-44 | inserting into one tree of a shared arena keeps any other tree that shares no node with it valid, with the same elements and root, and still disjoint |
| `Fuzz.InsertSorted` | src/fuzz.rs:59 | adding a byte to an ordered set keeps it strictly increasing and holding exactly the old elements and the byte |
| `Fuzz.OrderedSet` | src/fuzz.rs:59 | the bytes collected into an ordered set: strictly increasing, holding exactly the bytes of the input |
| `Fuzz.IncreasingUnique` | src/fuzz.rs:60-63 | two strictly increasing sequences with the same elements are equal, so equal length and element-wise comparison both succeed |
| `Fuzz.BuildFuzzTree` | src/fuzz.rs:32-52 | none exactly for empty input; otherwise a valid tree holding exactly the input's bytes, with at most one node per byte |
| `Fuzz.FuzzInsert` | src/fuzz.rs:53-64 | for every input, validation as written, the length comparison and the element comparisons all succeed |
| `Fuzz.RotateRightTree` | src/lib.rs:364-368 | inserting 5 and 1 into `new(15)` gives a valid tree holding {1, 5, 15} |
| `Fuzz.RotateRightExample` | src/lib.rs:362-376 | that tree passes validation, and the stack iterator yields 1, 5, 15 |

## Left out

- Panics: a failed `assert_eq!` or `panic!` is modelled as a `None` or `false` answer; unwinding is not modelled.
- The fixup loop's `limit` counter (src/lib.rs:108-113) is not modelled. The loop is proved to terminate by the depth of the current node. This model does not establish whether a long fixup could reach the cap and panic.
- `usize` is modelled as a natural number below the sentinel `2^64 - 1`. `Insert` and `BuildFuzzTree` require that the arena stays below that bound. Overflow of `black_count`'s `u16` sum is not modelled; counts are unbounded naturals.
- Unchecked indexing in release builds (`get_unchecked`) is modelled as a precondition that the index was issued. Debug assertions likewise become preconditions.
- `debug_str`, `debug_nodes`, the test-only arena iterator, and the `LOG` and `println!` output are not modelled: they only format output.
- The storage traits of src/storage/mod.rs are not part of this model. The owned and shared arenas are modelled directly, and a tree always holds the arena class itself.
- `UnsafeCell` aliasing in the shared arena becomes ordinary object sharing: every tree handle refers to the same arena object.
- The iterators yield values rather than references. The `iter` wrapper and the `unsafe` marker of `create_iterator` are not modelled.
- The duplicate `build_fuzz_tree`, `fuzz_insert`, `validate_constraints` and `black_count` at src/lib.rs:302-356 are the same code as src/fuzz.rs. The model cites the fuzz.rs copy.
- The test module beyond `rotate_right` (src/lib.rs:378 onward), and the colour sequence that `rotate_right` asserts (src/lib.rs:371-374), are not modelled.
- `Key.OptionKey.InsertIfNone`: the source changes the reference in place. The model answers the claimed flag and the new reference as a pair, and the descent writes the new reference into the node.
- `Storage.VecStorage.Get`: the contract states only that the answer is a node of the arena, not which one; every caller uses it through the node equations of the link invariant.
- `Validation.BlackCount`: as written, on an unbalanced tree it may answer a count. That is the finding below.
- `Fuzz.FuzzInsert`: the comparison is stated over the whole collected sequence. The source zips two iterators; with equal lengths, which the length check ensures, the two agree.

## Findings

| source | as written | input that shows it | evidently intended | confidence | as-written member | corrected member |
|---|---|---|---|---|---|---|
| src/fuzz.rs:18-28 | a node with a single child takes that child's black count without comparing it with the empty side's count of 0 | a Black root with no left child and a lone Black right child: the count is 2 and the check passes, though the black heights are 0 and 1 | an absent child counts 0 and is compared like a present one, so the check passes exactly on red-black trees | not executed | `Validation.LoneBlackChildPasses` | `Validation.CheckedBlackCount` |
