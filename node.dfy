/** One arena slot: a value, a colour and three slot references. */
module Nodes {
  import opened Wrappers
  import opened Key

  datatype Color = Red | Black

  datatype Node = Node(value: int, color: Color, parent: OptionKey, left: OptionKey, right: OptionKey)
  {
    /** Whether `k` is this node's right child. */
    function IsRight(k: nat): (b: bool)
      requires k != USIZE_MAX
      ensures b <==> right.Get() == Some(k)
      ensures right.Get() == None ==> !b
    {
      right.Is(k)
    }
  }

  /** `Node::from(value)`: a fresh Red node with no parent and no children. */
  function FromValue(v: int): (n: Node)
    ensures n.value == v && n.color == Red
    ensures n.parent.Get() == None && n.left.Get() == None && n.right.Get() == None
  {
    Node(v, Red, DefaultKey(), DefaultKey(), DefaultKey())
  }

  /** The node that starts a tree: `from(value)` recoloured Black. */
  function RootNode(v: int): (n: Node)
    ensures n.value == v && n.color == Black
    ensures n.parent.Get() == None && n.left.Get() == None && n.right.Get() == None
  {
    FromValue(v).(color := Black)
  }
}
