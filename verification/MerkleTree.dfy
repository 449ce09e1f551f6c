/** Paths and proofs in a Merkle tree (packages/anchor-utils/src/merkle/merkle-tree.ts). */
module MerkleTree {
  import opened Wrappers
  import opened MerkleElements

  type Path = seq<PathDirection>

  // ---------------------------------------------------------------- paths from above

  /** Can the path be followed from the top of the shape? */
  predicate Follows<D>(s: Shape<D>, p: Path) {
    p == [] || match s
      case Leaf(_) => false
      case Branch(_, left, right) => Follows(if p[0].L? then left else right, p[1..])
      case Single(_, _) => p == [L]
  }

  function At<D>(s: Shape<D>, p: Path): Shape<D>
    requires Follows(s, p)
  {
    if p == [] then s else
    match s
    case Branch(_, left, right) => At(if p[0].L? then left else right, p[1..])
    case Single(_, only) => Leaf(only)
  }

  /** The path to the leaf with this index. */
  function PathTo<D>(s: Shape<D>, index: nat): Path {
    match s
    case Leaf(_) => []
    case Branch(_, left, right) =>
      if index < |Leaves(left)| then [L] + PathTo(left, index) else [R] + PathTo(right, index - |Leaves(left)|)
    case Single(_, _) => [L]
  }

  lemma {:induction false} PathToReaches<D>(s: Shape<D>, index: nat)
    requires index < |Leaves(s)|
    ensures Follows(s, PathTo(s, index)) && At(s, PathTo(s, index)) == Leaf(Leaves(s)[index])
  {
    if s.Branch? {
      var k := |Leaves(s.left)|;
      if index < k {
        PathToReaches(s.left, index);
      } else {
        PathToReaches(s.right, index - k);
      }
    }
  }

  function Up(p: Path): Path
    requires p != []
  {
    p[..|p| - 1]
  }

  function Last(p: Path): PathDirection
    requires p != []
  {
    p[|p| - 1]
  }

  /** The sibling of the last node on the path, if it has one. */
  function SiblingOf<D>(s: Shape<D>, p: Path): Option<Node<D>>
    requires p != [] && Follows(s, p)
  {
    match s
    case Branch(_, left, right) =>
      if |p| == 1 then Some((if p[0].L? then right else left).node)
      else SiblingOf(if p[0].L? then left else right, p[1..])
    case Single(_, _) => None
  }

  /** What the parent reference of a node on the path tells, and which child it is. */
  lemma {:induction false} ParentAt<D>(s: Shape<D>, p: Path)
    requires p != [] && Follows(s, p) && Linked(s)
    ensures Follows(s, Up(p))
    ensures var parent := At(s, Up(p)).node;
      && At(s, p).node.parent == parent
      && (parent.left == At(s, p).node <==> Last(p).L?)
      && SiblingOf(s, p)
         == (if parent.right == null then None else Some(if Last(p).L? then parent.right else parent.left))
  {
    if s.Branch? {
      var child := if p[0].L? then s.left else s.right;
      NodeInside(s.left);
      NodeInside(s.right);
      if |p| > 1 {
        ParentAt(child, p[1..]);
        assert Up(p)[1..] == Up(p[1..]);
      }
    }
  }

  /** The tops of the subtrees that do not contain the node, from it upwards. */
  function Siblings<D>(s: Shape<D>, p: Path): seq<Node<D>>
    requires Follows(s, p)
  {
    if p == [] || !s.Branch? then []
    else if p[0].L? then Siblings(s.left, p[1..]) + [s.right.node]
    else Siblings(s.right, p[1..]) + [s.left.node]
  }

  lemma {:induction false} SiblingsFromBelow<D>(s: Shape<D>, p: Path)
    requires p != [] && Follows(s, p) && SiblingOf(s, p).Some?
    ensures Follows(s, Up(p)) && Siblings(s, p) == [SiblingOf(s, p).value] + Siblings(s, Up(p))
  {
    if |p| > 1 {
      SiblingsFromBelow(if p[0].L? then s.left else s.right, p[1..]);
      assert Up(p)[1..] == Up(p[1..]);
    } else {
      var child := if p[0].L? then s.left else s.right;
      assert p[1..] == [] && Siblings(child, []) == [];
    }
  }

  lemma {:induction false} SiblingsInside<D>(s: Shape<D>, p: Path)
    requires Follows(s, p) && Linked(s)
    ensures forall n :: n in Siblings(s, p) ==> n in Nodes(s) && n != s.node
    ensures s.Branch? ==> |Siblings(s, p)| == |p|
    ensures forall i, j :: 0 <= i < j < |Siblings(s, p)| ==> Siblings(s, p)[i] != Siblings(s, p)[j]
  {
    if p != [] && s.Branch? {
      var child, other := if p[0].L? then s.left else s.right, if p[0].L? then s.right else s.left;
      SiblingsInside(child, p[1..]);
      NodeInside(other);
      NodeInside(child);
      assert Siblings(s, p) == Siblings(child, p[1..]) + [other.node];
    }
  }

  // ---------------------------------------------------------------- recomputing the root

  /** The value at the top of the shape when the value at the end of the path is `x`. */
  function Recompute<D, M>(merge: MergeFunction<D, M>, s: Shape<D>, p: Path, x: D, metadata: Option<M>): D
    requires Follows(s, p)
  {
    if p == [] then x else
    match s
    case Branch(_, left, right) =>
      if p[0].L? then merge(Recompute(merge, left, p[1..], x, None), Some(right.node.data), metadata)
      else merge(left.node.data, Some(Recompute(merge, right, p[1..], x, None)), metadata)
    case Single(_, _) => merge(x, None, metadata)
  }

  lemma {:induction false} RecomputeOwnValue<D, M>(merge: MergeFunction<D, M>, s: Shape<D>, p: Path,
                                                   metadata: Option<M>)
    requires Follows(s, p) && Merged(s, merge, metadata)
    ensures Recompute(merge, s, p, At(s, p).node.data, metadata) == s.node.data
  {
    if p != [] && s.Branch? {
      RecomputeOwnValue(merge, if p[0].L? then s.left else s.right, p[1..], None);
    }
  }

  /** Different inputs never merge to the same value (under the same metadata). */
  ghost predicate Injective<D(!new), M(!new)>(merge: MergeFunction<D, M>) {
    forall a, b, c, d, m :: merge(a, b, m) == merge(c, d, m) ==> a == c && b == d
  }

  lemma {:induction false} RecomputeInjective<D(!new), M(!new)>(merge: MergeFunction<D, M>, s: Shape<D>, p: Path,
                                                x: D, y: D,
                                                               metadata: Option<M>)
    requires Follows(s, p) && Injective(merge)
    requires Recompute(merge, s, p, x, metadata) == Recompute(merge, s, p, y, metadata)
    ensures x == y
  {
    if p != [] && s.Branch? {
      var child := if p[0].L? then s.left else s.right;
      var vx, vy := Recompute(merge, child, p[1..], x, None), Recompute(merge, child, p[1..], y, None);
      assert Some(vx) == Some(vy);
      RecomputeInjective(merge, child, p[1..], x, y, None);
    }
  }

  // ---------------------------------------------------------------- the tree

  /** Merge upwards along a proof; `None` when a proof node has no parent. */
  ghost function Fold<D, M>(merge: MergeFunction<D, M>, metadata: Option<M>, last: Node<D>, proof: seq<Node<D>>,
                            current: D): Option<D>
    reads proof
  {
    if proof == [] then Some(current)
    else if proof[0].parent == null then None
    else Fold(merge, metadata, last, proof[1..], MergeStep(merge, metadata, last, proof[0], current))
  }

  ghost function MergeStep<D, M>(merge: MergeFunction<D, M>, metadata: Option<M>, last: Node<D>, p: Node<D>,
                                 current: D): D
    requires p.parent != null
    reads p
  {
    var m := if p == last then metadata else None;
    if p.parent.left == p then merge(p.data, Some(current), m) else merge(current, Some(p.data), m)
  }

  class MerkleTree<D(==), M> {
    const merge: MergeFunction<D, M>
    const root: Node<D>
    const leafNodes: seq<Node<D>>
    const metadata: Option<M>
    ghost const shape: Shape<D>
    ghost var repr: set<Node<D>>

    ghost predicate Valid()
      reads this, repr
    {
      && repr == Nodes(shape)
      && !shape.Leaf? && root == shape.node && root in Nodes(shape) && root.parent == null
      && leafNodes == Leaves(shape)
      && Linked(shape) && Merged(shape, merge, metadata) && Halved(shape)
    }

    constructor (merge: MergeFunction<D, M>, root: Node<D>, leafNodes: seq<Node<D>>, metadata: Option<M>,
                 ghost shape: Shape<D>, ghost nodes: set<Node<D>>)
      requires nodes == Nodes(shape)
      requires !shape.Leaf? && root == shape.node && root in Nodes(shape) && root.parent == null
      requires leafNodes == Leaves(shape)
      requires Linked(shape) && Merged(shape, merge, metadata) && Halved(shape)
      ensures Valid() && this.merge == merge && this.root == root && this.leafNodes == leafNodes
      ensures this.metadata == metadata && this.shape == shape
    {
      this.merge, this.root, this.leafNodes, this.metadata := merge, root, leafNodes, metadata;
      this.shape, this.repr := shape, nodes;
    }

    method GetDirectPathFromRoot(elemIndex: nat) returns (r: Result<Path, string>)
      requires Valid()
      ensures r == if elemIndex < |leafNodes| then Success(PathTo(shape, elemIndex)) else Failure("Empty leaf")
    {
      if elemIndex >= |leafNodes| {
        return Failure("Empty leaf");
      }
      PathToReaches(shape, elemIndex);
      var path := PathFromRoot(leafNodes[elemIndex], [], PathTo(shape, elemIndex));
      assert PathTo(shape, elemIndex) + [] == PathTo(shape, elemIndex);
      return Success(path);
    }

    method PathFromRoot(element: Node<D>, result: Path, ghost p: Path) returns (r: Path)
      requires Valid()
      requires Follows(shape, p) && element == At(shape, p).node
      ensures r == p + Reversed(result)
      decreases |p|
    {
      var parent := element.parent;
      if parent == null {
        assert p == [] by {
          if p != [] {
            ParentAt(shape, p);
          }
        }
        return Reversed(result);
      }
      assert p != [];
      ParentAt(shape, p);
      var direction := if parent.left == element then L else R;
      r := PathFromRoot(parent, result + [direction], Up(p));
      ReversedSnoc(result, direction);
      assert p == Up(p) + [Last(p)];
    }

    method GetProof(elemIndex: nat) returns (r: Result<seq<Node<D>>, string>)
      requires Valid()
      ensures Valid()
      ensures r == if elemIndex >= |leafNodes| then Failure("Empty leaf")
                   else if |leafNodes| == 1 then Failure("Empty proof node")
                   else (PathToReaches(shape, elemIndex); Success(Siblings(shape, PathTo(shape, elemIndex))))
    {
      NodeInside(shape);
      if elemIndex >= |leafNodes| {
        return Failure("Empty leaf");
      }
      PathToReaches(shape, elemIndex);
      r := CalculateProof(leafNodes[elemIndex], [], PathTo(shape, elemIndex));
      assert [] + Siblings(shape, PathTo(shape, elemIndex)) == Siblings(shape, PathTo(shape, elemIndex));
    }

    method CalculateProof(element: Node<D>, result: seq<Node<D>>, ghost p: Path)
      returns (r: Result<seq<Node<D>>, string>)
      requires Valid()
      requires Follows(shape, p) && element == At(shape, p).node
      ensures r == if shape.Single? && p != [] then Failure("Empty proof node")
                   else Success(result + Siblings(shape, p))
      decreases |p|
    {
      var parent := element.parent;
      if parent == null {
        assert p == [] by {
          if p != [] {
            ParentAt(shape, p);
          }
        }
        assert result + [] == result;
        return Success(result);
      }
      assert p != [];
      ParentAt(shape, p);
      BranchSibling(shape, p);
      var proofNode := if parent.left == element then parent.right else parent.left;
      if proofNode == null {
        return Failure("Empty proof node");
      }
      SiblingsFromBelow(shape, p);
      r := CalculateProof(parent, result + [proofNode], Up(p));
      assert result + [proofNode] + Siblings(shape, Up(p)) == result + Siblings(shape, p);
    }

    /** Verifies proof for an element; fails when a proof node has no parent. */
    method VerifyProof(proof: seq<Node<D>>, element: D) returns (r: Result<bool, string>)
      ensures var folded := if proof == [] then Some(element)
                            else Fold(merge, metadata, proof[|proof| - 1], proof, element);
        if folded.None? then r.Failure? else r == Success(folded.value == root.data)
    {
      ghost var folded := if proof == [] then Some(element)
                          else Fold(merge, metadata, proof[|proof| - 1], proof, element);
      var current := element;
      for k := 0 to |proof|
        invariant proof == [] ==> current == element
        invariant proof != [] ==> folded == Fold(merge, metadata, proof[|proof| - 1], proof[k..], current)
      {
        var p := proof[k];
        assert proof[k..][0] == p && proof[k..][1..] == proof[k + 1..];
        var parent := p.parent;
        if parent == null {
          return Failure("No parent for node");
        }
        var isLeft := parent.left == p;
        var isRoot := p == proof[|proof| - 1];
        var m := if isRoot then metadata else None;
        if isLeft {
          current := merge(p.data, Some(current), m);
        } else {
          current := merge(current, Some(p.data), m);
        }
      }
      return Success(root.data == current);
    }
  }

  function Reversed(p: Path): Path {
    if p == [] then [] else Reversed(p[1..]) + [p[0]]
  }

  lemma {:induction false} ReversedSnoc(p: Path, d: PathDirection)
    ensures Reversed(p + [d]) == [d] + Reversed(p)
  {
    if p == [] {
      assert [d][1..] == [] && p + [d] == [d];
    } else {
      ReversedSnoc(p[1..], d);
      assert (p + [d])[1..] == p[1..] + [d];
    }
  }

  lemma {:induction false} BranchSibling<D>(s: Shape<D>, p: Path)
    requires p != [] && Follows(s, p) && Linked(s)
    ensures SiblingOf(s, p).Some? <==> s.Branch?
  {
    if s.Branch? && |p| > 1 {
      BranchSibling(if p[0].L? then s.left else s.right, p[1..]);
    }
  }

  // ---------------------------------------------------------------- paths by arithmetic

  /** The path to element `index` of `leavesCount` when every step halves the count. */
  function HalvingPath(index: nat, leavesCount: nat): Path {
    if leavesCount <= 1 then []
    else if index < leavesCount / 2 then [L] + HalvingPath(index, leavesCount / 2)
    else [R] + HalvingPath(index - leavesCount / 2, leavesCount - leavesCount / 2)
  }

  method PathByIndex(index: nat, leavesCount: nat) returns (r: Result<Path, string>)
    ensures r == if index >= leavesCount then Failure("Leaf does not exist")
                 else Success(if leavesCount == 1 then [L] else HalvingPath(index, leavesCount))
  {
    if index >= leavesCount {
      return Failure("Leaf does not exist");
    }
    if leavesCount == 1 {
      return Success([L]);
    }
    var path := PathByIndexHelper(index, leavesCount, []);
    assert [] + HalvingPath(index, leavesCount) == HalvingPath(index, leavesCount);
    return Success(path);
  }

  lemma HalvingStep(path: Path, index: nat, leavesCount: nat)
    requires index < leavesCount && leavesCount > 1
    ensures var middleIndex := leavesCount / 2;
      path + HalvingPath(index, leavesCount) ==
        if index < middleIndex then path + [L] + HalvingPath(index, middleIndex)
        else path + [R] + HalvingPath(index - middleIndex, leavesCount - middleIndex)
  {
  }

  method PathByIndexHelper(index: nat, leavesCount: nat, path: Path) returns (r: Path)
    requires index < leavesCount
    ensures r == path + HalvingPath(index, leavesCount)
  {
    if leavesCount <= 1 {
      assert HalvingPath(index, leavesCount) == [];
      return path;
    }
    HalvingStep(path, index, leavesCount);
    if leavesCount == 2 {
      assert HalvingPath(0, 1) == [];
      return path + [if index == 0 then L else R];
    }
    var middleIndex := leavesCount / 2;
    if index < middleIndex {
      r := PathByIndexHelper(index, middleIndex, path + [L]);
    } else {
      r := PathByIndexHelper(index - middleIndex, leavesCount - middleIndex, path + [R]);
    }
  }
}
