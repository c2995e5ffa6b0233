/** The window of roots a proof may be built against. */
module RootHistory {
  import opened Numbers
  import opened MerkleSpec
  import opened MerkleOpening

  const ROOT_HISTORY_SIZE: nat := 90

  /** The root after `k` pair insertions. */
  function RootAfter(h: Hash, zero: nat, levels: nat, leaves: seq<nat>, k: nat): nat {
    if 2 * k <= |leaves| then Root(h, zero, levels, leaves[..2 * k]) else 0
  }

  /** `k` counts insertions whose root is still in the ring after `n`. */
  predicate InWindow(k: int, n: nat) {
    0 <= k <= n < k + ROOT_HISTORY_SIZE
  }

  /** `root` is nonzero and among the last 90 roots of this leaf history. */
  ghost predicate RecentRoot(h: Hash, zero: nat, levels: nat, leaves: seq<nat>, root: nat) {
    root != 0 && exists k: nat :: InWindow(k, |leaves| / 2) && RootAfter(h, zero, levels, leaves, k) == root
  }

  /** `root` is the root after some number of insertions, however long ago. */
  ghost predicate PastRoot(h: Hash, zero: nat, levels: nat, leaves: seq<nat>, root: nat) {
    exists k: nat :: 2 * k <= |leaves| && RootAfter(h, zero, levels, leaves, k) == root
  }

  lemma RecentRootIsPast(h: Hash, zero: nat, levels: nat, leaves: seq<nat>, root: nat)
    requires RecentRoot(h, zero, levels, leaves, root)
    ensures PastRoot(h, zero, levels, leaves, root)
  {
    var k: nat :| InWindow(k, |leaves| / 2) && RootAfter(h, zero, levels, leaves, k) == root;
    assert 2 * k <= |leaves|;
  }

  /** A past root stays one as leaves are added, even when it leaves the window. */
  lemma PastRootStays(h: Hash, zero: nat, levels: nat, leaves: seq<nat>, more: seq<nat>, root: nat)
    requires PastRoot(h, zero, levels, leaves, root) && |leaves| <= |more| && more[..|leaves|] == leaves
    ensures PastRoot(h, zero, levels, more, root)
  {
    var k: nat :| 2 * k <= |leaves| && RootAfter(h, zero, levels, leaves, k) == root;
    assert more[..2 * k] == leaves[..2 * k];
    assert RootAfter(h, zero, levels, more, k) == root;
  }

  /**
   The root after `k` insertions is known through 89 further ones. After 90 or
   more it is known exactly if one of the last 90 roots is the same again.
   */
  lemma KnownForNinety(h: Hash, zero: nat, levels: nat, leaves: seq<nat>, k: nat)
    requires 2 * k <= |leaves| && RootAfter(h, zero, levels, leaves, k) != 0
    ensures var n, root := |leaves| / 2, Root(h, zero, levels, leaves[..2 * k]);
            && (n - k <= 89 ==> RecentRoot(h, zero, levels, leaves, root))
            && (n - k >= 90 ==>
                  (RecentRoot(h, zero, levels, leaves, root)
                   <==> exists j: nat :: n - 89 <= j <= n && RootAfter(h, zero, levels, leaves, j) == root))
  {
    hide Root;
    var n, root := |leaves| / 2, Root(h, zero, levels, leaves[..2 * k]);
    assert RootAfter(h, zero, levels, leaves, k) == root;
    assert n - k <= 89 ==> InWindow(k, n);
    if j: nat :| n - 89 <= j <= n && RootAfter(h, zero, levels, leaves, j) == root {
      assert InWindow(j, n);
    }
  }

  /** A path to this root starts at a leaf of this tree, or shows a collision. */
  ghost predicate OpensOnlyTo(h: Hash, zero: nat, levels: nat, leaves: seq<nat>, root: nat) {
    forall leaf: nat, index: nat, siblings: seq<nat> {:trigger PathHash(h, leaf, index, siblings, levels)} ::
      |siblings| == levels && index < Pow2(levels) && PathHash(h, leaf, index, siblings, levels) == root ==>
        leaf == LeafAt(zero, leaves, index)
        || exists l :: 0 <= l < levels && CollidesAt(h, zero, leaves, leaf, index, siblings, l)
  }

  lemma RootOpensOnlyToItsTree(h: Hash, zero: nat, levels: nat, leaves: seq<nat>)
    ensures OpensOnlyTo(h, zero, levels, leaves, Root(h, zero, levels, leaves))
  {
    var root := Root(h, zero, levels, leaves);
    forall leaf: nat, index: nat, siblings: seq<nat> |
      |siblings| == levels && index < Pow2(levels) && PathHash(h, leaf, index, siblings, levels) == root
      ensures leaf == LeafAt(zero, leaves, index)
              || exists l :: 0 <= l < levels && CollidesAt(h, zero, leaves, leaf, index, siblings, l)
    {
      ShrToRoot(index, levels);
      OpeningIsSound(h, zero, leaves, leaf, index, siblings, levels);
    }
  }

  lemma PastRootOpensToItsPrefix(h: Hash, zero: nat, levels: nat, leaves: seq<nat>, root: nat) returns (k: nat)
    requires PastRoot(h, zero, levels, leaves, root)
    ensures 2 * k <= |leaves| && root == Root(h, zero, levels, leaves[..2 * k])
    ensures OpensOnlyTo(h, zero, levels, leaves[..2 * k], root)
  {
    k :| 2 * k <= |leaves| && RootAfter(h, zero, levels, leaves, k) == root;
    RootOpensOnlyToItsTree(h, zero, levels, leaves[..2 * k]);
  }

  /**
   Every accepted root is the root after some number of pair insertions in the
   window, and it opens at each index only to that prefix's leaf (the zero leaf
   past its end), unless a hash on the path collides with one of that tree.
   */
  lemma AcceptedRootOpensToItsPrefix(h: Hash, zero: nat, levels: nat, leaves: seq<nat>, root: nat) returns (k: nat)
    requires RecentRoot(h, zero, levels, leaves, root)
    ensures InWindow(k, |leaves| / 2) && root == Root(h, zero, levels, leaves[..2 * k])
    ensures OpensOnlyTo(h, zero, levels, leaves[..2 * k], root)
  {
    k :| InWindow(k, |leaves| / 2) && RootAfter(h, zero, levels, leaves, k) == root;
    RootOpensOnlyToItsTree(h, zero, levels, leaves[..2 * k]);
  }
}
