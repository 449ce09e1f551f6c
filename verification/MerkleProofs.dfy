/** Proofs and paths of a built Merkle tree are right. */
module MerkleProofs {
  import opened Wrappers
  import opened MerkleElements
  import opened MerkleTree
  import opened MerkleTreeFactory

  // ---------------------------------------------------------------- the arithmetic path

  lemma {:induction false} HalvingFollowsTree<D>(s: Shape<D>, index: nat)
    requires Halved(s) && !s.Single? && index < |Leaves(s)|
    requires s.Branch? ==> NoSingleBelow(s)
    ensures PathTo(s, index) == HalvingPath(index, |Leaves(s)|)
  {
    if s.Branch? {
      NodeInside(s.left);
      NodeInside(s.right);
      var k := |Leaves(s.left)|;
      if index < k {
        HalvingFollowsTree(s.left, index);
      } else {
        HalvingFollowsTree(s.right, index - k);
      }
    }
  }

  predicate NoSingleBelow<D>(s: Shape<D>) {
    match s
    case Leaf(_) => true
    case Branch(_, left, right) => NoSingleBelow(left) && NoSingleBelow(right)
    case Single(_, _) => false
  }

  lemma {:induction false} LinkedHasNoSingle<D>(s: Shape<D>)
    requires Linked(s) && !s.Single?
    ensures NoSingleBelow(s)
  {
    if s.Branch? {
      LinkedHasNoSingle(s.left);
      LinkedHasNoSingle(s.right);
    }
  }

  /** In a built tree the path by index is the path along the parent references. */
  lemma ArithmeticPathIsTreePath<D, M>(tree: MerkleTree<D, M>, index: nat)
    requires tree.Valid() && index < |tree.leafNodes|
    ensures PathTo(tree.shape, index)
         == if |tree.leafNodes| == 1 then [L] else HalvingPath(index, |tree.leafNodes|)
    ensures Follows(tree.shape, PathTo(tree.shape, index))
    ensures At(tree.shape, PathTo(tree.shape, index)).node == tree.leafNodes[index]
  {
    PathToReaches(tree.shape, index);
    NodeInside(tree.shape);
    if tree.shape.Branch? {
      LinkedHasNoSingle(tree.shape);
      HalvingFollowsTree(tree.shape, index);
    }
  }

  lemma {:induction false} DistinctIndicesHaveDistinctPaths(i: nat, j: nat, leavesCount: nat)
    requires i < j < leavesCount
    ensures HalvingPath(i, leavesCount) != HalvingPath(j, leavesCount)
  {
    var k := leavesCount / 2;
    if j < k {
      DistinctIndicesHaveDistinctPaths(i, j, k);
    } else if i >= k {
      DistinctIndicesHaveDistinctPaths(i - k, j - k, leavesCount - k);
    } else {
      assert HalvingPath(i, leavesCount)[0].L? && HalvingPath(j, leavesCount)[0].R?;
    }
    if !(i < k <= j) {
      assert HalvingPath(i, leavesCount)[1..]
          == if j < k then HalvingPath(i, k) else HalvingPath(i - k, leavesCount - k);
      assert HalvingPath(j, leavesCount)[1..]
          == if j < k then HalvingPath(j, k) else HalvingPath(j - k, leavesCount - k);
    }
  }

  /** Within the leaf limit of a depth no path is longer than the depth. */
  lemma {:induction false} PathsRespectDepth(index: nat, leavesCount: nat, depth: nat)
    requires index < leavesCount <= Pow2(depth)
    ensures |HalvingPath(index, leavesCount)| <= depth
  {
    if leavesCount > 1 {
      var k := leavesCount / 2;
      if index < k {
        PathsRespectDepth(index, k, depth - 1);
      } else {
        PathsRespectDepth(index - k, leavesCount - k, depth - 1);
      }
    }
  }

  /** A tree with a depth limit has no longer path than the limit. */
  lemma BuiltPathsRespectDepth<D, M>(tree: MerkleTree<D, M>, index: nat, depthLimit: nat)
    requires tree.Valid() && index < |tree.leafNodes| <= Pow2(depthLimit) && depthLimit >= 1
    ensures |PathTo(tree.shape, index)| <= depthLimit
  {
    ArithmeticPathIsTreePath(tree, index);
    PathsRespectDepth(index, |tree.leafNodes|, depthLimit);
  }

  // ---------------------------------------------------------------- proofs

  lemma {:induction false} FollowsPrefix<D>(s: Shape<D>, p: Path, m: nat)
    requires Follows(s, p) && m <= |p|
    ensures Follows(s, p[..m]) && Follows(At(s, p[..m]), p[m..])
    ensures At(At(s, p[..m]), p[m..]) == At(s, p)
  {
    if m == 0 {
      assert p[..0] == [] && p[0..] == p;
    } else if s.Branch? {
      FollowsPrefix(if p[0].L? then s.left else s.right, p[1..], m - 1);
      assert p[..m][1..] == p[1..][..m - 1] && p[1..][m - 1..] == p[m..];
    } else {
      assert p[..m] == p && p[m..] == [];
    }
  }

  /** One step down: where the path goes, and what it leaves aside. */
  lemma {:induction false} LastStep<D>(s: Shape<D>, p: Path)
    requires p != [] && Follows(s, p) && s.Branch? && Linked(s)
    ensures Follows(s, Up(p))
    ensures var above := At(s, Up(p));
      && above.Branch?
      && At(s, p) == (if Last(p).L? then above.left else above.right)
      && SiblingOf(s, p) == Some((if Last(p).L? then above.right else above.left).node)
      && (SiblingOf(s, p).value.parent == above.node)
      && (above.node.left == SiblingOf(s, p).value <==> Last(p).R?)
  {
    NodeInside(s.left);
    NodeInside(s.right);
    if |p| > 1 {
      var child := if p[0].L? then s.left else s.right;
      assert Follows(child, p[1..]);
      LastStep(child, p[1..]);
      assert Up(p)[1..] == Up(p[1..]);
    } else {
      assert Up(p) == [];
    }
  }

  /**
   Merging upwards along the siblings of the first `m` steps of the path, from the value recomputed
   below, gives the recomputed root: the metadata is mixed in by the last sibling only.
   */
  lemma {:induction false} FoldRecomputes<D, M>(merge: MergeFunction<D, M>, metadata: Option<M>, s: Shape<D>, p: Path,
                                                x: D, last: Node<D>, m: nat)
    requires Linked(s) && s.Branch? && Follows(s, p) && 0 < m <= |p|
    requires Follows(s, p[..m]) && Follows(At(s, p[..m]), p[m..])
    requires last == (if p[0].L? then s.right else s.left).node
    ensures Fold(merge, metadata, last, Siblings(s, p[..m]), Recompute(merge, At(s, p[..m]), p[m..], x, None))
         == Some(Recompute(merge, s, p, x, metadata))
  {
    var q := p[..m];
    LastStep(s, q);
    SiblingsFromBelow(s, q);
    SiblingsInside(s, q);
    FollowsPrefix(s, p, m - 1);
    assert Up(q) == p[..m - 1] && p[m - 1..][1..] == p[m..] && p[m - 1..][0] == Last(q);
    var current := Recompute(merge, At(s, q), p[m..], x, None);
    var sibling := SiblingOf(s, q).value;
    TopSiblingIsLast(s, q);
    assert q[0] == p[0] && |q| == m && Siblings(s, q)[0] == sibling && Siblings(s, q)[m - 1] == last;
    assert sibling == last <==> m == 1;
    var next := MergeStep(merge, metadata, last, sibling, current);
    if m == 1 {
      assert At(s, Up(q)) == s && p[0..] == p && Siblings(s, Up(q)) == [];
      assert next == Recompute(merge, s, p, x, metadata);
    } else {
      assert next == Recompute(merge, At(s, Up(q)), p[m - 1..], x, None);
      FoldRecomputes(merge, metadata, s, p, x, last, m - 1);
    }
  }

  lemma TopSiblingIsLast<D>(s: Shape<D>, q: Path)
    requires s.Branch? && q != [] && Follows(s, q) && Linked(s)
    ensures |Siblings(s, q)| == |q|
    ensures Siblings(s, q)[|q| - 1] == (if q[0].L? then s.right else s.left).node
  {
    SiblingsInside(s, q);
  }

  /** Main result: the proof of a leaf leads from the value of that leaf to the root. */
  lemma ProofsAreComplete<D, M>(tree: MerkleTree<D, M>, index: nat, element: D)
    requires tree.Valid() && index < |tree.leafNodes| && |tree.leafNodes| >= 2
    ensures Follows(tree.shape, PathTo(tree.shape, index))
    ensures var proof := Siblings(tree.shape, PathTo(tree.shape, index));
      && proof != []
      && Fold(tree.merge, tree.metadata, proof[|proof| - 1], proof, element)
         == Some(Recompute(tree.merge, tree.shape, PathTo(tree.shape, index), element, tree.metadata))
    ensures Recompute(tree.merge, tree.shape, PathTo(tree.shape, index), tree.leafNodes[index].data, tree.metadata)
         == tree.root.data
  {
    var s, p := tree.shape, PathTo(tree.shape, index);
    NodeInside(s);
    PathToReaches(s, index);
    assert p[..|p|] == p && p[|p|..] == [];
    TopSiblingIsLast(s, p);
    FoldRecomputes(tree.merge, tree.metadata, s, p, element, (if p[0].L? then s.right else s.left).node, |p|);
    RecomputeOwnValue(tree.merge, s, p, tree.metadata);
  }

  /** Main result: when merging is injective, the proof of a leaf accepts no other value. */
  lemma ProofsAreSound<D(!new), M(!new)>(tree: MerkleTree<D, M>, index: nat, element: D)
    requires tree.Valid() && index < |tree.leafNodes| && |tree.leafNodes| >= 2
    requires Injective(tree.merge)
    ensures Follows(tree.shape, PathTo(tree.shape, index))
    ensures var proof := Siblings(tree.shape, PathTo(tree.shape, index));
      && proof != []
      && (Fold(tree.merge, tree.metadata, proof[|proof| - 1], proof, element) == Some(tree.root.data)
          <==> element == tree.leafNodes[index].data)
  {
    var leaf := tree.leafNodes[index].data;
    ProofsAreComplete(tree, index, element);
    if Recompute(tree.merge, tree.shape, PathTo(tree.shape, index), element, tree.metadata) == tree.root.data {
      RecomputeInjective(tree.merge, tree.shape, PathTo(tree.shape, index), element, leaf, tree.metadata);
    }
  }

  /** Get the proof of one leaf and verify it for some element. */
  method ProveAndVerify<D(==,!new), M(!new)>(tree: MerkleTree<D, M>, index: nat, element: D) returns (accepted: bool)
    requires tree.Valid() && index < |tree.leafNodes| && |tree.leafNodes| >= 2
    ensures element == tree.leafNodes[index].data ==> accepted
    ensures Injective(tree.merge) ==> (accepted <==> element == tree.leafNodes[index].data)
  {
    var proof := tree.GetProof(index);
    ProofsAreComplete(tree, index, element);
    if Injective(tree.merge) {
      ProofsAreSound(tree, index, element);
    }
    var verified := tree.VerifyProof(proof.value, element);
    accepted := verified.value;
  }
}
