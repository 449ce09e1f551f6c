/** The root of a built tree as a function of its leaves, the exact depth, and the order of sorted leaves. */
module MerkleValues {
  import opened Wrappers
  import opened MerkleElements
  import opened MerkleTree
  import opened MerkleTreeFactory
  import opened MerkleProofs

  // ---------------------------------------------------------------- the root

  /** Merge the values of both halves, the odd one on the right; the metadata enters at the top only. */
  function ValueOf<D, M>(merge: MergeFunction<D, M>, data: seq<D>, metadata: Option<M>): D
    requires data != []
    decreases |data|
  {
    if |data| == 1 then data[0] else
    var middle := |data| / 2;
    merge(ValueOf(merge, data[..middle], None), Some(ValueOf(merge, data[middle..], None)), metadata)
  }

  lemma DataOfBoth<D>(a: seq<Node<D>>, b: seq<Node<D>>)
    ensures DataOf(a + b) == DataOf(a) + DataOf(b)
  {
  }

  lemma {:induction false} ShapeHasValue<D, M>(s: Shape<D>, merge: MergeFunction<D, M>, metadata: Option<M>)
    requires Halved(s) && Merged(s, merge, metadata) && NoSingleBelow(s)
    ensures Leaves(s) != [] && s.node.data == ValueOf(merge, DataOf(Leaves(s)), metadata)
  {
    NodeInside(s);
    if s.Branch? {
      ShapeHasValue(s.left, merge, None);
      ShapeHasValue(s.right, merge, None);
      NodeInside(s.left);
      NodeInside(s.right);
      var data, middle := DataOf(Leaves(s)), |Leaves(s)| / 2;
      DataOfBoth(Leaves(s.left), Leaves(s.right));
      assert data[..middle] == DataOf(Leaves(s.left)) && data[middle..] == DataOf(Leaves(s.right));
    }
  }

  /** Main result: the root depends on the leaves in their order, the merge function and the metadata alone. */
  lemma RootIsValueOfLeaves<D, M>(tree: MerkleTree<D, M>)
    requires tree.Valid()
    ensures tree.leafNodes != []
    ensures tree.root.data
         == if |tree.leafNodes| == 1 then tree.merge(tree.leafNodes[0].data, None, tree.metadata)
            else ValueOf(tree.merge, DataOf(tree.leafNodes), tree.metadata)
  {
    NodeInside(tree.shape);
    if tree.shape.Branch? {
      LinkedHasNoSingle(tree.shape);
      ShapeHasValue(tree.shape, tree.merge, tree.metadata);
    }
  }

  // ---------------------------------------------------------------- the depth

  /** A leaf that is as deep as possible; the right side is never the smaller one. */
  lemma {:induction false} DeepestLeaf(leavesCount: nat, depth: nat) returns (index: nat)
    requires leavesCount > Pow2(depth)
    ensures index < leavesCount && |HalvingPath(index, leavesCount)| > depth
    decreases depth
  {
    var k := leavesCount / 2;
    if depth == 0 {
      index := k;
    } else {
      var deep := DeepestLeaf(leavesCount - k, depth - 1);
      index := k + deep;
    }
  }

  /** The limit is exact: all paths are within the depth exactly when there are no more than 2^depth leaves. */
  lemma DepthLimitIsExact(leavesCount: nat, depth: nat)
    ensures leavesCount <= Pow2(depth) <==>
              forall index :: 0 <= index < leavesCount ==> |HalvingPath(index, leavesCount)| <= depth
  {
    if leavesCount <= Pow2(depth) {
      forall index | 0 <= index < leavesCount ensures |HalvingPath(index, leavesCount)| <= depth {
        PathsRespectDepth(index, leavesCount, depth);
      }
    } else {
      var index := DeepestLeaf(leavesCount, depth);
    }
  }

  // ---------------------------------------------------------------- sorting

  /** `a` stands before `b`. */
  ghost predicate Before<T>(s: seq<T>, a: T, b: T) {
    exists k, l :: 0 <= k < l < |s| && s[k] == a && s[l] == b
  }

  lemma BeforeInTail<T>(head: T, s: seq<T>, a: T, b: T)
    requires Before(s, a, b)
    ensures Before([head] + s, a, b)
  {
    var k, l :| 0 <= k < l < |s| && s[k] == a && s[l] == b;
    assert ([head] + s)[k + 1] == a && ([head] + s)[l + 1] == b;
  }

  lemma HeadIsBefore<T>(head: T, s: seq<T>, b: T)
    requires b in s
    ensures Before([head] + s, head, b)
  {
    var l :| 0 <= l < |s| && s[l] == b;
    assert ([head] + s)[0] == head && ([head] + s)[l + 1] == b;
  }

  /** A node goes in front of the sorted nodes that it may precede, and leaves their order as it is. */
  lemma {:induction false} InsertedBefore<D(!new)>(compare: (D, D) -> int, node: Node<D>, s: seq<Node<D>>, b: Node<D>)
    requires TotalPreorder(compare) && SortedBy(compare, s) && b in s && compare(node.data, b.data) <= 0
    ensures Before(InsertNode(compare, node, s), node, b)
  {
    if compare(node.data, s[0].data) <= 0 {
      HeadIsBefore(node, s, b);
    } else {
      assert b in s[1..];
      InsertedBefore(compare, node, s[1..], b);
      BeforeInTail(s[0], InsertNode(compare, node, s[1..]), node, b);
    }
  }

  lemma {:induction false} InsertKeepsMembers<D>(compare: (D, D) -> int, node: Node<D>, s: seq<Node<D>>)
    ensures forall n :: n in InsertNode(compare, node, s) <==> n == node || n in s
  {
    if s != [] && compare(node.data, s[0].data) > 0 {
      InsertKeepsMembers(compare, node, s[1..]);
      assert forall n :: n in s <==> n == s[0] || n in s[1..];
    }
  }

  lemma {:induction false} InsertKeepsBefore<D>(compare: (D, D) -> int, node: Node<D>, s: seq<Node<D>>,
                                                a: Node<D>, b: Node<D>)
    requires Before(s, a, b)
    ensures Before(InsertNode(compare, node, s), a, b)
  {
    if compare(node.data, s[0].data) <= 0 {
      BeforeInTail(node, s, a, b);
    } else {
      var k, l :| 0 <= k < l < |s| && s[k] == a && s[l] == b;
      var rest := InsertNode(compare, node, s[1..]);
      if k == 0 {
        assert b == s[1..][l - 1];
        InsertKeepsMembers(compare, node, s[1..]);
        HeadIsBefore(s[0], rest, b);
      } else {
        assert s[1..][k - 1] == a && s[1..][l - 1] == b;
        InsertKeepsBefore(compare, node, s[1..], a, b);
        BeforeInTail(s[0], rest, a, b);
      }
    }
  }

  lemma {:induction false} SortKeepsMembers<D>(compare: (D, D) -> int, nodes: seq<Node<D>>)
    ensures forall n :: n in SortNodes(compare, nodes) <==> n in nodes
  {
    if nodes != [] {
      SortKeepsMembers(compare, nodes[1..]);
      InsertKeepsMembers(compare, nodes[0], SortNodes(compare, nodes[1..]));
      assert forall n :: n in nodes <==> n == nodes[0] || n in nodes[1..];
    }
  }

  /** Sorting is stable: a node stays in front of a later one that it may precede, also when they compare equal. */
  lemma {:induction false} SortIsStable<D(!new)>(compare: (D, D) -> int, nodes: seq<Node<D>>, i: nat, j: nat)
    requires TotalPreorder(compare) && i < j < |nodes| && compare(nodes[i].data, nodes[j].data) <= 0
    ensures Before(SortNodes(compare, nodes), nodes[i], nodes[j])
  {
    var rest := SortNodes(compare, nodes[1..]);
    if i == 0 {
      SortNodesSorts(compare, nodes[1..]);
      SortKeepsMembers(compare, nodes[1..]);
      assert nodes[j] == nodes[1..][j - 1];
      InsertedBefore(compare, nodes[0], rest, nodes[j]);
    } else {
      assert nodes[1..][i - 1] == nodes[i] && nodes[1..][j - 1] == nodes[j];
      SortIsStable(compare, nodes[1..], i - 1, j - 1);
      InsertKeepsBefore(compare, nodes[0], rest, nodes[i], nodes[j]);
    }
  }
}
