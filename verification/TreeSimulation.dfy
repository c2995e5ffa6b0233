/**
 Whole runs of the two trees, side by side: the pool's pairwise insertion and
 the allowlist's single insertion build the same tree.
 */
module TreeSimulation {
  import opened Wrappers
  import opened Numbers
  import opened MerkleSpec
  import opened MerkleTree
  import opened AspMembership

  function Leaves(pairs: seq<(nat, nat)>): (s: seq<nat>)
    ensures |s| == 2 * |pairs|
  {
    if pairs == [] then []
    else
      var n := |pairs| - 1;
      Leaves(pairs[..n]) + [pairs[n].0, pairs[n].1]
  }

  predicate PairsInField(pairs: seq<(nat, nat)>) {
    forall i :: 0 <= i < |pairs| ==> InField(pairs[i].0) && InField(pairs[i].1)
  }

  /**
   From `init` through any sequence of insertions, those that fit succeed and
   the others fail; the last root is the root of the complete tree over every
   inserted leaf in order, and the tree is full exactly when no leaf is free,
   which is after 2^(depth-1) insertions.
   */
  method InsertAll(h: Hash, zeros: seq<nat>, depth: nat, pairs: seq<(nat, nat)>)
    returns (inserted: nat, root: nat, full: bool, remaining: nat)
    requires Closed(h) && ZeroTable(h, zeros) && 1 <= depth <= 32
    requires PairsInField(pairs)
    ensures inserted == if |pairs| <= Pow2(depth - 1) then |pairs| else Pow2(depth - 1)
    ensures root == Root(h, zeros[0], depth, Leaves(pairs[..inserted]))
    ensures full <==> remaining == 0
    ensures full <==> inserted == Pow2(depth - 1)
  {
    var tree := new MerkleTreeWithHistory(h, zeros);
    var started := tree.Init(depth);
    inserted := 0;
    var i := 0;
    while i < |pairs|
      invariant inserted == (if i <= Pow2(depth - 1) then i else Pow2(depth - 1)) && i <= |pairs|
      invariant tree.Valid() && tree.Ready() && tree.h == h && tree.zeros == zeros
      invariant tree.levels == Some(depth) && tree.leaves == Leaves(pairs[..inserted])
    {
      assert pairs[..i + 1][..i] == pairs[..i];
      var answer := tree.InsertTwoLeaves(pairs[i].0, pairs[i].1);
      if answer.Ok? {
        inserted := inserted + 1;
      }
      i := i + 1;
    }
    var lastRoot := tree.GetLastRoot();
    var isFull := tree.IsFull();
    var free := tree.RemainingLeaves();
    return inserted, lastRoot.value, isFull.value, free.value;
  }

  /** The trees hold the same leaves, and the same subtrees from level 1 up. */
  ghost predicate SameTree(pool: MerkleTreeWithHistory, asp: ASPMembership)
    reads pool, asp
  {
    && pool.Valid() && pool.Ready() && asp.Valid() && !asp.operatorMaintained
    && pool.h == asp.h && pool.zeros[0] == asp.zeros[0]
    && pool.levels == Some(asp.levels) && pool.leaves == asp.leaves
  }

  ghost predicate SameStoredNodes(pool: MerkleTreeWithHistory, asp: ASPMembership)
    reads pool, asp
  {
    && (forall l: nat :: 1 <= l < asp.levels ==>
          l in pool.filledSubtree && l in asp.filledSubtrees && pool.filledSubtree[l] == asp.filledSubtrees[l])
    && pool.currentRootIndex.Some? && pool.currentRootIndex.value in pool.root
    && pool.root[pool.currentRootIndex.value] == asp.root
  }

  lemma SameTreeSameNodes(pool: MerkleTreeWithHistory, asp: ASPMembership)
    requires SameTree(pool, asp)
    ensures SameStoredNodes(pool, asp)
  {
    pool.CurrentSlotHoldsRoot();
    assert forall l: nat :: 1 <= l < asp.levels ==> pool.filledSubtree[l] == Frontier(asp.h, asp.zeros[0], asp.leaves, l);
  }

  /**
   At every even position one pair insertion does what two single insertions
   do: both fail or both succeed, with the same root and the same filled
   subtrees at levels 1 and up.
   */
  method PairIsTwoSingles(pool: MerkleTreeWithHistory, asp: ASPMembership, a: nat, b: nat)
    returns (paired: bool, single: bool)
    requires SameTree(pool, asp) && InField(a) && InField(b)
    modifies pool, asp
    ensures SameTree(pool, asp) && SameStoredNodes(pool, asp)
    ensures paired == single
    ensures pool.leaves == if paired then old(pool.leaves) + [a, b] else old(pool.leaves)
  {
    Pow2Even(asp.levels);
    var p := pool.InsertTwoLeaves(a, b);
    var first := asp.InsertLeaf(true, a);
    var second := asp.InsertLeaf(true, b);
    assert SameTree(pool, asp);
    SameTreeSameNodes(pool, asp);
    return p.Ok?, first.Ok? && second.Ok?;
  }
}
