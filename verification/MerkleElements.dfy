/** Nodes of a Merkle tree (packages/anchor-utils/src/merkle/merkle-elements.ts). */
module MerkleElements {
  import opened Wrappers

  /** The value of a merge: from the values below, and the tree metadata at the root only. */
  type MergeFunction<!D, !M> = (D, Option<D>, Option<M>) -> D

  class Node<D> {
    const data: D
    const left: Node?<D>
    const right: Node?<D>
    var parent: Node?<D>

    constructor (data: D, left: Node?<D>, right: Node?<D>)
      ensures this.data == data && this.left == left && this.right == right
      ensures parent == null
    {
      this.data, this.left, this.right, parent := data, left, right, null;
    }
  }

  datatype PathDirection = L | R

  /**
   What a tree of nodes looks like from above: the nodes it is made of, and how they are arranged.
   `Single` is the root over the only leaf of a whole tree.
   */
  datatype Shape<D> =
    | Leaf(node: Node<D>)
    | Branch(node: Node<D>, left: Shape<D>, right: Shape<D>)
    | Single(node: Node<D>, only: Node<D>)

  ghost function Nodes<D>(s: Shape<D>): set<Node<D>> {
    match s
    case Leaf(node) => {node}
    case Branch(node, left, right) => {node} + Nodes(left) + Nodes(right)
    case Single(node, only) => {node, only}
  }

  function Leaves<D>(s: Shape<D>): seq<Node<D>> {
    match s
    case Leaf(node) => [node]
    case Branch(_, left, right) => Leaves(left) + Leaves(right)
    case Single(_, only) => [only]
  }

  /** Child and parent references agree with the shape, and no node is used twice. */
  ghost predicate Linked<D>(s: Shape<D>)
    reads Nodes(s) - {s.node}
  {
    match s
    case Leaf(_) => true
    case Branch(node, left, right) =>
      && !left.Single? && !right.Single?
      && node !in Nodes(left) && node !in Nodes(right) && Nodes(left) !! Nodes(right)
      && node.left == left.node && node.right == right.node
      && left.node.parent == node && right.node.parent == node
      && Linked(left) && Linked(right)
    case Single(node, only) =>
      node != only && node.left == only && node.right == null && only.parent == node
  }

  /** Every inner value is the merge of the values below it, with `metadata` at the top. */
  ghost predicate Merged<D, M>(s: Shape<D>, merge: MergeFunction<D, M>, metadata: Option<M>) {
    match s
    case Leaf(_) => true
    case Branch(node, left, right) =>
      && node.data == merge(left.node.data, Some(right.node.data), metadata)
      && Merged(left, merge, None) && Merged(right, merge, None)
    case Single(node, only) => node.data == merge(only.data, None, metadata)
  }

  /** Every branch splits its leaves in the middle, the odd one on the right. */
  ghost predicate Halved<D>(s: Shape<D>) {
    s.Branch? ==> |Leaves(s.left)| == |Leaves(s)| / 2 && Halved(s.left) && Halved(s.right)
  }

  lemma {:induction false} NodeInside<D>(s: Shape<D>)
    ensures |Leaves(s)| > 0 && s.node in Nodes(s)
    ensures s.Branch? ==> |Leaves(s)| > 1
  {
    if s.Branch? {
      NodeInside(s.left);
      NodeInside(s.right);
    }
  }
}
