/**
 The complete binary tree that both incremental trees stand for: every node of
 a fixed-depth tree over the leaves inserted so far, padded on the right with
 the zero leaf.
 */
module MerkleSpec {
  import opened Wrappers
  import opened Numbers

  /** `poseidon2_compress` on field elements. */
  type Hash = (nat, nat) -> nat

  /** The hash maps field elements to a field element. */
  ghost predicate Closed(h: Hash) {
    forall a: nat, b: nat {:trigger h(a, b)} :: InField(a) && InField(b) ==> InField(h(a, b))
  }

  /** `poseidon2_compress` with its range check; `None` is the panic. */
  function Compress(h: Hash, left: nat, right: nat): Option<nat> {
    if left >= MODULUS || right >= MODULUS then None else Some(h(left, right))
  }

  function LeafAt(zero: nat, leaves: seq<nat>, i: nat): nat {
    if i < |leaves| then leaves[i] else zero
  }

  /** Node `i` of level `level`, counted from the leaves. */
  function Node(h: Hash, zero: nat, leaves: seq<nat>, level: nat, i: nat): nat {
    if level == 0 then LeafAt(zero, leaves, i)
    else h(Node(h, zero, leaves, level - 1, 2 * i), Node(h, zero, leaves, level - 1, 2 * i + 1))
  }

  function Root(h: Hash, zero: nat, levels: nat, leaves: seq<nat>): nat {
    Node(h, zero, leaves, levels, 0)
  }

  /** The root of an empty subtree of height `level`. */
  function ZeroHash(h: Hash, zero: nat, level: nat): nat {
    if level == 0 then zero
    else h(ZeroHash(h, zero, level - 1), ZeroHash(h, zero, level - 1))
  }

  /** `get_zeroes`: the chain of zero hashes up to the deepest tree, level 32. */
  predicate ZeroTable(h: Hash, zeros: seq<nat>) {
    && |zeros| == 33
    && InField(zeros[0])
    && forall i :: 0 <= i < 32 ==> ZeroStep(h, zeros, i)
  }

  predicate ZeroStep(h: Hash, zeros: seq<nat>, i: nat)
    requires i + 1 < |zeros|
  {
    zeros[i + 1] == h(zeros[i], zeros[i])
  }

  lemma {:induction false} ZeroTableIsZeroHash(h: Hash, zeros: seq<nat>, level: nat)
    requires Closed(h) && ZeroTable(h, zeros) && level < 33
    ensures zeros[level] == ZeroHash(h, zeros[0], level) && InField(zeros[level])
  {
    if level > 0 {
      ZeroTableIsZeroHash(h, zeros, level - 1);
      assert ZeroStep(h, zeros, level - 1);
    }
  }

  /** A node depends only on the leaves below it. */
  lemma {:induction false} NodeDependsOnLeavesBelow(h: Hash, zero: nat, a: seq<nat>, b: seq<nat>, level: nat, i: nat)
    requires forall k: nat :: Shr(k, level) == i ==> LeafAt(zero, a, k) == LeafAt(zero, b, k)
    ensures Node(h, zero, a, level, i) == Node(h, zero, b, level, i)
  {
    if level == 0 {
      assert Shr(i, 0) == i;
    } else {
      assert forall k: nat :: Shr(k, level) == Shr(k, level - 1) / 2;
      NodeDependsOnLeavesBelow(h, zero, a, b, level - 1, 2 * i);
      NodeDependsOnLeavesBelow(h, zero, a, b, level - 1, 2 * i + 1);
    }
  }

  /** A node with no inserted leaf below it is a zero hash. */
  lemma {:induction false} NodePastTheEnd(h: Hash, zero: nat, leaves: seq<nat>, level: nat, i: nat)
    requires forall k: nat :: Shr(k, level) == i ==> |leaves| <= k
    ensures Node(h, zero, leaves, level, i) == ZeroHash(h, zero, level)
  {
    if level == 0 {
      assert Shr(i, 0) == i;
    } else {
      var below := level - 1;
      forall k: nat | Shr(k, below) / 2 == i
        ensures |leaves| <= k
      {
        assert Shr(k, level) == i;
      }
      NodePastTheEnd(h, zero, leaves, level - 1, 2 * i);
      NodePastTheEnd(h, zero, leaves, level - 1, 2 * i + 1);
    }
  }

  lemma {:induction false} NodeInField(h: Hash, zero: nat, leaves: seq<nat>, level: nat, i: nat)
    requires Closed(h) && InField(zero) && AllInField(leaves)
    ensures InField(Node(h, zero, leaves, level, i))
  {
    if level > 0 {
      NodeInField(h, zero, leaves, level - 1, 2 * i);
      NodeInField(h, zero, leaves, level - 1, 2 * i + 1);
    }
  }

  lemma {:induction false} EmptyTreeRoot(h: Hash, zero: nat, level: nat, i: nat)
    ensures Node(h, zero, [], level, i) == ZeroHash(h, zero, level)
  {
    NodePastTheEnd(h, zero, [], level, i);
  }

  /**
   The stored left sibling at `level` when `n` leaves are in: the node at the
   even position on or before the path of the last leaf.
   */
  function Frontier(h: Hash, zero: nat, leaves: seq<nat>, level: nat): nat {
    var last := if |leaves| == 0 then 0 else |leaves| - 1;
    Node(h, zero, leaves, level, 2 * (Shr(last, level) / 2))
  }

  /**
   `after` extends `before` by leaves that all lie below the same node at
   `level`, which is the node the insertion loop is at.
   */
  predicate Appended(before: seq<nat>, after: seq<nat>, level: nat) {
    && |before| < |after| && before == after[..|before|]
    && Shr(|before|, level) == Shr(|after| - 1, level)
  }

  /** When the path turns right, the frontier holds its left sibling. */
  lemma {:induction false} FrontierIsLeftSibling(h: Hash, zero: nat, before: seq<nat>, after: seq<nat>, level: nat)
    requires Appended(before, after, level) && Shr(|before|, level) % 2 == 1
    ensures Frontier(h, zero, before, level) == Node(h, zero, after, level, Shr(|before|, level) - 1)
    ensures Frontier(h, zero, after, level) == Frontier(h, zero, before, level)
  {
    hide Node;
    var at := Shr(|before|, level);
    if |before| == 0 {
      ShrOfZero(level);
      assert false;
    }
    ShrPredecessor(|before|, level);
    assert 2 * (Shr(|before| - 1, level) / 2) == at - 1;
    forall k: nat | Shr(k, level) == at - 1
      ensures LeafAt(zero, before, k) == LeafAt(zero, after, k)
    {
      if k >= |before| {
        ShrMonotone(|before|, k, level);
      }
    }
    NodeDependsOnLeavesBelow(h, zero, before, after, level, at - 1);
  }

  /** When the path turns left, its right sibling is still empty. */
  lemma {:induction false} RightSiblingIsEmpty(h: Hash, zero: nat, before: seq<nat>, after: seq<nat>, level: nat)
    requires Appended(before, after, level) && Shr(|before|, level) % 2 == 0
    ensures Node(h, zero, after, level, Shr(|before|, level) + 1) == ZeroHash(h, zero, level)
    ensures Frontier(h, zero, after, level) == Node(h, zero, after, level, Shr(|before|, level))
  {
    var at := Shr(|before|, level);
    forall k: nat | Shr(k, level) == at + 1
      ensures |after| <= k
    {
      if k < |after| {
        ShrMonotone(k, |after| - 1, level);
      }
    }
    NodePastTheEnd(h, zero, after, level, at + 1);
  }

  lemma {:induction false} ShrOfZero(level: nat)
    ensures Shr(0, level) == 0
  {
    if level > 0 {
      ShrOfZero(level - 1);
    }
  }

  lemma {:induction false} AppendedAbove(before: seq<nat>, after: seq<nat>, level: nat)
    requires Appended(before, after, level)
    ensures Appended(before, after, level + 1)
  {
    assert Shr(|before|, level + 1) == Shr(|before|, level) / 2;
    assert Shr(|after| - 1, level + 1) == Shr(|after| - 1, level) / 2;
  }

  /** A node of the right half of a tree is a node of the tree over the leaves past the first half. */
  lemma {:induction false} NodeOfRightHalf(h: Hash, zero: nat, leaves: seq<nat>, level: nat, above: nat, i: nat)
    ensures Node(h, zero, leaves, level, Pow2(above) + i)
            == Node(h, zero, if Pow2(level + above) <= |leaves| then leaves[Pow2(level + above)..] else [], level, i)
  {
    if level > 0 {
      assert Pow2(above + 1) == 2 * Pow2(above);
      hide Pow2;
      NodeOfRightHalf(h, zero, leaves, level - 1, above + 1, 2 * i);
      NodeOfRightHalf(h, zero, leaves, level - 1, above + 1, 2 * i + 1);
      assert 2 * (Pow2(above) + i) == Pow2(above + 1) + 2 * i;
    }
  }

  /** A node of the left half only sees the first leaves. */
  lemma {:induction false} NodeOfLeftHalf(h: Hash, zero: nat, leaves: seq<nat>, level: nat, above: nat, i: nat)
    requires i < Pow2(above)
    ensures var half := Pow2(level + above);
            Node(h, zero, leaves, level, i) == Node(h, zero, if half <= |leaves| then leaves[..half] else leaves, level, i)
  {
    if level > 0 {
      assert Pow2(above + 1) == 2 * Pow2(above);
      NodeOfLeftHalf(h, zero, leaves, level - 1, above + 1, 2 * i);
      NodeOfLeftHalf(h, zero, leaves, level - 1, above + 1, 2 * i + 1);
    }
  }

  /** The complete tree as its halves: a leaf, or the hash of the left half's root and the right half's. */
  lemma {:induction false} RootIsHashOfHalves(h: Hash, zero: nat, levels: nat, leaves: seq<nat>)
    ensures Root(h, zero, 0, leaves) == if leaves == [] then zero else leaves[0]
    ensures var half := Pow2(levels);
            Root(h, zero, levels + 1, leaves)
            == if |leaves| <= half then h(Root(h, zero, levels, leaves), Root(h, zero, levels, []))
               else h(Root(h, zero, levels, leaves[..half]), Root(h, zero, levels, leaves[half..]))
  {
    var half := Pow2(levels);
    assert Pow2(0) == 1;
    NodeOfLeftHalf(h, zero, leaves, levels, 0, 0);
    NodeOfRightHalf(h, zero, leaves, levels, 0, 0);
    assert |leaves| == half ==> leaves[..half] == leaves && leaves[half..] == [];
  }
}
