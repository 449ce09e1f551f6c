/** Building a Merkle tree (packages/anchor-utils/src/merkle/merkle-tree-factory.ts). */
module MerkleTreeFactory {
  import opened Wrappers
  import opened MerkleElements
  import opened MerkleTree

  /** `Array.prototype.sort` with a comparator on the data: a stable insertion sort. */
  function InsertNode<D>(compare: (D, D) -> int, node: Node<D>, sorted: seq<Node<D>>): seq<Node<D>> {
    if sorted == [] || compare(node.data, sorted[0].data) <= 0 then [node] + sorted
    else [sorted[0]] + InsertNode(compare, node, sorted[1..])
  }

  function SortNodes<D>(compare: (D, D) -> int, nodes: seq<Node<D>>): seq<Node<D>> {
    if nodes == [] then [] else InsertNode(compare, nodes[0], SortNodes(compare, nodes[1..]))
  }

  function DataOf<D>(nodes: seq<Node<D>>): seq<D> {
    seq(|nodes|, k requires 0 <= k < |nodes| => nodes[k].data)
  }

  ghost predicate Distinct<T>(s: seq<T>) {
    forall i, j :: 0 <= i < j < |s| ==> s[i] != s[j]
  }

  ghost predicate TotalPreorder<D(!new)>(compare: (D, D) -> int) {
    && (forall a, b :: compare(a, b) <= 0 || compare(b, a) <= 0)
    && (forall a, b, c :: compare(a, b) <= 0 && compare(b, c) <= 0 ==> compare(a, c) <= 0)
  }

  ghost predicate SortedBy<D>(compare: (D, D) -> int, nodes: seq<Node<D>>) {
    forall i, j :: 0 <= i < j < |nodes| ==> compare(nodes[i].data, nodes[j].data) <= 0
  }

  lemma HeadThenDistinct<T>(head: T, rest: seq<T>)
    requires Distinct(rest) && head !in rest
    ensures Distinct([head] + rest)
  {
  }

  lemma {:induction false} InsertNodeHolds<D>(compare: (D, D) -> int, node: Node<D>, s: seq<Node<D>>)
    requires Distinct(s) && node !in s
    ensures Distinct(InsertNode(compare, node, s))
    ensures forall n :: n in InsertNode(compare, node, s) ==> n == node || n in s
  {
    if s == [] || compare(node.data, s[0].data) <= 0 {
      HeadThenDistinct(node, s);
    } else {
      var rest := InsertNode(compare, node, s[1..]);
      InsertNodeHolds(compare, node, s[1..]);
      HeadThenDistinct(s[0], rest);
    }
  }

  lemma {:induction false} InsertNodeData<D>(compare: (D, D) -> int, node: Node<D>, s: seq<Node<D>>)
    ensures multiset(DataOf(InsertNode(compare, node, s))) == multiset{node.data} + multiset(DataOf(s))
  {
    if s == [] || compare(node.data, s[0].data) <= 0 {
      assert DataOf([node] + s) == [node.data] + DataOf(s);
    } else {
      var rest := InsertNode(compare, node, s[1..]);
      InsertNodeData(compare, node, s[1..]);
      assert DataOf(s) == [s[0].data] + DataOf(s[1..]);
      assert DataOf([s[0]] + rest) == [s[0].data] + DataOf(rest);
    }
  }

  lemma HeadThenSorted<D>(compare: (D, D) -> int, head: Node<D>, rest: seq<Node<D>>)
    requires SortedBy(compare, rest) && forall n :: n in rest ==> compare(head.data, n.data) <= 0
    ensures SortedBy(compare, [head] + rest)
  {
  }

  lemma {:induction false} InsertNodeSorts<D(!new)>(compare: (D, D) -> int, node: Node<D>, s: seq<Node<D>>)
    requires TotalPreorder(compare) && SortedBy(compare, s)
    ensures SortedBy(compare, InsertNode(compare, node, s))
    ensures forall n :: n in InsertNode(compare, node, s) ==> n == node || n in s
  {
    if s == [] || compare(node.data, s[0].data) <= 0 {
      assert forall n :: n in s ==> n == s[0] || compare(s[0].data, n.data) <= 0;
      HeadThenSorted(compare, node, s);
    } else {
      InsertNodeSorts(compare, node, s[1..]);
      HeadThenSorted(compare, s[0], InsertNode(compare, node, s[1..]));
    }
  }

  lemma {:induction false} SortNodesKeeps<D>(compare: (D, D) -> int, nodes: seq<Node<D>>)
    requires Distinct(nodes)
    ensures var r := SortNodes(compare, nodes);
      && Distinct(r) && (forall k :: 0 <= k < |r| ==> r[k] in nodes)
      && multiset(DataOf(r)) == multiset(DataOf(nodes))
  {
    if nodes != [] {
      SortNodesKeeps(compare, nodes[1..]);
      InsertNodeHolds(compare, nodes[0], SortNodes(compare, nodes[1..]));
      InsertNodeData(compare, nodes[0], SortNodes(compare, nodes[1..]));
      var r := SortNodes(compare, nodes);
      forall k | 0 <= k < |r| ensures r[k] in nodes {
        assert r[k] in r;
      }
      assert nodes == [nodes[0]] + nodes[1..];
      assert DataOf(nodes) == [nodes[0].data] + DataOf(nodes[1..]);
    }
  }

  lemma {:induction false} SortNodesSorts<D(!new)>(compare: (D, D) -> int, nodes: seq<Node<D>>)
    requires TotalPreorder(compare)
    ensures SortedBy(compare, SortNodes(compare, nodes))
  {
    if nodes != [] {
      SortNodesSorts(compare, nodes[1..]);
      InsertNodeSorts(compare, nodes[0], SortNodes(compare, nodes[1..]));
    }
  }

  lemma DistinctHalves<T>(a: seq<T>, b: seq<T>)
    requires Distinct(a + b)
    ensures Distinct(a) && Distinct(b) && forall x :: x in a ==> x !in b
  {
    assert forall i :: 0 <= i < |a| ==> (a + b)[i] == a[i];
    assert forall i :: 0 <= i < |b| ==> (a + b)[|a| + i] == b[i];
  }

  /** `Math.pow(2, n)` */
  function Pow2(n: nat): nat {
    if n == 0 then 1 else 2 * Pow2(n - 1)
  }

  datatype BuildError = EmptyLeavesError | MerkleDepthError(depthLimit: nat, leavesLimit: nat)

  class MerkleTreeFactory<D(==,!new), M> {
    const merge: MergeFunction<D, M>
    const compare: Option<(D, D) -> int>
    const generateMetadata: Option<seq<D> -> M>
    const depthLimit: nat  // 0 when there is no limit

    constructor (merge: MergeFunction<D, M>, compare: Option<(D, D) -> int>, generateMetadata: Option<seq<D> -> M>,
                 depthLimit: nat)
      ensures this.merge == merge && this.compare == compare
      ensures this.generateMetadata == generateMetadata && this.depthLimit == depthLimit
    {
      this.merge, this.compare, this.generateMetadata, this.depthLimit := merge, compare, generateMetadata, depthLimit;
    }

    method Build(leaves: seq<D>) returns (r: Result<MerkleTree<D, M>, BuildError>)
      ensures leaves == [] ==> r == Failure(EmptyLeavesError)
      ensures leaves != [] ==>
        (r.Failure? <==> depthLimit > 0 && Pow2(depthLimit) < |leaves|)
      ensures leaves != [] && r.Failure? ==> r == Failure(MerkleDepthError(depthLimit, Pow2(depthLimit)))
      ensures r.Success? ==>
        && r.value.Valid()
        && r.value.merge == merge
        && multiset(DataOf(r.value.leafNodes)) == multiset(leaves)
        && (if compare.None? then DataOf(r.value.leafNodes) == leaves
            else TotalPreorder(compare.value) ==> SortedBy(compare.value, r.value.leafNodes))
        && r.value.metadata
           == (if generateMetadata.None? then None else Some(generateMetadata.value(DataOf(r.value.leafNodes))))
    {
      if leaves == [] {
        return Failure(EmptyLeavesError);
      }
      if depthLimit > 0 && Pow2(depthLimit) < |leaves| {
        return Failure(MerkleDepthError(depthLimit, Pow2(depthLimit)));
      }
      var made := MakeNodes(leaves);
      var nodes := Arrange(made);
      forall k | 0 <= k < |nodes| ensures fresh(nodes[k]) && nodes[k].parent == null {
        var j :| 0 <= j < |made| && made[j] == nodes[k];
      }
      var metadata := if generateMetadata.Some? then Some(generateMetadata.value(DataOf(nodes))) else None;
      var root, shape, all := BuildRoot(nodes, metadata);
      var tree := new MerkleTree<D, M>(merge, root, nodes, metadata, shape, all);
      return Success(tree);
    }

    /** `nodes.sort(compare)`, when there is an order. */
    method Arrange(nodes: seq<Node<D>>) returns (sorted: seq<Node<D>>)
      requires Distinct(nodes)
      ensures Distinct(sorted) && forall k :: 0 <= k < |sorted| ==> sorted[k] in nodes
      ensures |sorted| == |nodes| && multiset(DataOf(sorted)) == multiset(DataOf(nodes))
      ensures sorted == if compare.None? then nodes else SortNodes(compare.value, nodes)
      ensures compare.Some? && TotalPreorder(compare.value) ==> SortedBy(compare.value, sorted)
    {
      if compare.None? {
        return nodes;
      }
      SortNodesKeeps(compare.value, nodes);
      if TotalPreorder(compare.value) {
        SortNodesSorts(compare.value, nodes);
      }
      sorted := SortNodes(compare.value, nodes);
      assert |multiset(DataOf(sorted))| == |sorted| && |multiset(DataOf(nodes))| == |nodes|;
    }

    method MakeNodes(leaves: seq<D>) returns (nodes: seq<Node<D>>)
      ensures DataOf(nodes) == leaves && Distinct(nodes)
      ensures forall k :: 0 <= k < |nodes| ==> fresh(nodes[k]) && nodes[k].parent == null
    {
      nodes := [];
      for k := 0 to |leaves|
        invariant DataOf(nodes) == leaves[..k] && Distinct(nodes)
        invariant forall l :: 0 <= l < |nodes| ==> fresh(nodes[l]) && nodes[l].parent == null
      {
        var node := new Node(leaves[k], null, null);
        nodes := nodes + [node];
      }
    }

    /** `buildLevel` at depth 0. */
    method BuildRoot(elements: seq<Node<D>>, metadata: Option<M>)
      returns (root: Node<D>, ghost shape: Shape<D>, ghost nodes: set<Node<D>>)
      requires elements != [] && Distinct(elements)
      requires forall k :: 0 <= k < |elements| ==> elements[k].parent == null
      modifies elements
      ensures !shape.Leaf? && shape.node == root && root.parent == null && Leaves(shape) == elements
      ensures nodes == Nodes(shape) && forall n :: n in nodes ==> n in elements || fresh(n)
      ensures Linked(shape) && Halved(shape) && Merged(shape, merge, metadata)
    {
      if |elements| == 1 {
        var first := elements[0];
        root := new Node(merge(first.data, None, metadata), first, null);
        first.parent := root;
        shape, nodes := Single(root, first), {root, first};
      } else {
        root, shape, nodes := BuildLevel(elements, metadata);
      }
    }

    /** `buildLevel` below the root, or at the root of several leaves. */
    method BuildLevel(elements: seq<Node<D>>, metadata: Option<M>)
      returns (root: Node<D>, ghost shape: Shape<D>, ghost nodes: set<Node<D>>)
      requires elements != [] && Distinct(elements)
      requires forall k :: 0 <= k < |elements| ==> elements[k].parent == null
      modifies elements
      ensures shape.node == root && root.parent == null && !shape.Single?
      ensures Leaves(shape) == elements
      ensures |elements| > 1 ==> shape.Branch?
      ensures nodes == Nodes(shape) && forall n :: n in nodes ==> n in elements || fresh(n)
      ensures Linked(shape) && Halved(shape) && Merged(shape, merge, metadata)
      decreases |elements|, 1
    {
      if |elements| == 1 {
        return elements[0], Leaf(elements[0]), {elements[0]};
      }
      var leftNode, rightNode;
      ghost var left, right, below;
      leftNode, rightNode, left, right, below := BuildHalves(elements);
      root, shape := MergeNodes(leftNode, rightNode, metadata, left, right, below);
      nodes := {root} + below;
    }

    /** Split in the middle and build both sides. */
    method BuildHalves(elements: seq<Node<D>>)
      returns (leftNode: Node<D>, rightNode: Node<D>, ghost left: Shape<D>, ghost right: Shape<D>,
               ghost below: set<Node<D>>)
      requires |elements| > 1 && Distinct(elements)
      requires forall k :: 0 <= k < |elements| ==> elements[k].parent == null
      modifies elements
      ensures left.node == leftNode && leftNode in Nodes(left) && !left.Single?
      ensures right.node == rightNode && rightNode in Nodes(right) && !right.Single?
      ensures Leaves(left) + Leaves(right) == elements && |Leaves(left)| == |elements| / 2
      ensures Nodes(left) !! Nodes(right) && below == Nodes(left) + Nodes(right)
      ensures forall n :: n in below ==> n in elements || fresh(n)
      ensures Linked(left) && Halved(left) && Merged(left, merge, None)
      ensures Linked(right) && Halved(right) && Merged(right, merge, None)
      decreases |elements|, 0
    {
      var middleIndex := |elements| / 2;
      var leftElements, rightElements := elements[..middleIndex], elements[middleIndex..];
      assert elements == leftElements + rightElements;
      DistinctHalves(leftElements, rightElements);
      ghost var leftNodes, rightNodes;
      leftNode, left, leftNodes := BuildLevel(leftElements, None);
      assert forall n :: n in leftNodes ==> n !in rightElements;
      rightNode, right, rightNodes := BuildLevel(rightElements, None);
      NodeInside(left);
      NodeInside(right);
      below := leftNodes + rightNodes;
    }

    /** Merge two trees and set the parent of both. */
    method MergeNodes(leftNode: Node<D>, rightNode: Node<D>, metadata: Option<M>,
                      ghost left: Shape<D>, ghost right: Shape<D>, ghost below: set<Node<D>>)
      returns (merged: Node<D>, ghost shape: Shape<D>)
      requires left.node == leftNode && leftNode in Nodes(left) && !left.Single? && Linked(left)
      requires right.node == rightNode && rightNode in Nodes(right) && !right.Single? && Linked(right)
      requires Nodes(left) !! Nodes(right)
      requires Nodes(left) + Nodes(right) == below
      requires Merged(left, merge, None) && Merged(right, merge, None)
      modifies leftNode, rightNode
      ensures fresh(merged) && merged.parent == null
      ensures shape == Branch(merged, left, right)
      ensures Linked(shape) && Merged(shape, merge, metadata)
    {
      merged := new Node(merge(leftNode.data, Some(rightNode.data), metadata), leftNode, rightNode);
      assert merged !in below;
      leftNode.parent := merged;
      rightNode.parent := merged;
      shape := Branch(merged, left, right);
    }
  }
}
