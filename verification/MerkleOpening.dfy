/**
 Authentication paths. The circuit's `MerkleProof` template rebuilds a root
 from a leaf, an index and one sibling per level; here it is compared with the
 complete tree.
 */
module MerkleOpening {
  import opened Numbers
  import opened MerkleSpec

  /** The pair hashed at `level` on the way up, ordered by the index bit. */
  function PathPair(h: Hash, leaf: nat, index: nat, siblings: seq<nat>, level: nat): (nat, nat)
    requires level < |siblings|
    decreases level, 1
  {
    var below := PathHash(h, leaf, index, siblings, level);
    if Shr(index, level) % 2 == 0 then (below, siblings[level]) else (siblings[level], below)
  }

  /** The value on the path after `level` hashes. */
  function PathHash(h: Hash, leaf: nat, index: nat, siblings: seq<nat>, level: nat): nat
    requires level <= |siblings|
    decreases level, 0
  {
    if level == 0 then leaf
    else
      var pair := PathPair(h, leaf, index, siblings, level - 1);
      h(pair.0, pair.1)
  }

  /** The pair hashed to form node `i` of level `level + 1`. */
  function NodePair(h: Hash, zero: nat, leaves: seq<nat>, level: nat, i: nat): (nat, nat) {
    (Node(h, zero, leaves, level, 2 * i), Node(h, zero, leaves, level, 2 * i + 1))
  }

  predicate Collision(h: Hash, x: (nat, nat), y: (nat, nat)) {
    x != y && h(x.0, x.1) == h(y.0, y.1)
  }

  /** The path and the tree hash different pairs to the same value at `level`. */
  predicate CollidesAt(h: Hash, zero: nat, leaves: seq<nat>, leaf: nat, index: nat, siblings: seq<nat>, level: nat)
    requires level < |siblings|
  {
    Collision(h, PathPair(h, leaf, index, siblings, level),
              NodePair(h, zero, leaves, level, Shr(index, level + 1)))
  }

  /**
   A path that reaches the tree's node above `index` starts at the leaf stored
   there, or one of its hashes collides with a hash of the tree.
   */
  lemma {:induction false} OpeningIsSound(h: Hash, zero: nat, leaves: seq<nat>,
                                          leaf: nat, index: nat, siblings: seq<nat>, level: nat)
    requires level <= |siblings|
    requires PathHash(h, leaf, index, siblings, level) == Node(h, zero, leaves, level, Shr(index, level))
    ensures leaf == LeafAt(zero, leaves, index)
            || exists l :: 0 <= l < level && CollidesAt(h, zero, leaves, leaf, index, siblings, l)
  {
    if level > 0 {
      var l := level - 1;
      if !CollidesAt(h, zero, leaves, leaf, index, siblings, l) {
        OpeningIsSound(h, zero, leaves, leaf, index, siblings, l);
      }
    }
  }

  /** The node beside the path of leaf `index` at `level`. */
  function Sibling(h: Hash, zero: nat, leaves: seq<nat>, index: nat, level: nat): nat {
    var at := Shr(index, level);
    Node(h, zero, leaves, level, if at % 2 == 0 then at + 1 else at - 1)
  }

  function Siblings(h: Hash, zero: nat, leaves: seq<nat>, index: nat, levels: nat): (s: seq<nat>)
    ensures |s| == levels
    ensures forall l: nat :: l < levels ==> s[l] == Sibling(h, zero, leaves, index, l)
  {
    seq(levels, l requires 0 <= l => Sibling(h, zero, leaves, index, l))
  }

  /** The tree's own siblings open the leaf they belong to. */
  lemma {:induction false} HonestPathOpens(h: Hash, zero: nat, leaves: seq<nat>, index: nat, levels: nat, level: nat)
    requires level <= levels
    ensures PathHash(h, LeafAt(zero, leaves, index), index, Siblings(h, zero, leaves, index, levels), level)
            == Node(h, zero, leaves, level, Shr(index, level))
  {
    if level > 0 {
      HonestPathOpens(h, zero, leaves, index, levels, level - 1);
      var at := Shr(index, level - 1);
      assert Shr(index, level) == at / 2;
      assert at == 2 * (at / 2) || at == 2 * (at / 2) + 1;
    }
  }

  lemma ShrToRoot(index: nat, levels: nat)
    requires index < Pow2(levels)
    ensures Shr(index, levels) == 0
  {
    ShrBound(index, levels, levels);
  }

  /**
   A root opens at `index` to exactly the leaf inserted there (or to the zero
   leaf past the last one), unless a hash of the path collides with a hash of
   the tree; and the leaf does have a path.
   */
  lemma RootOpensOnlyToItsLeaf(h: Hash, zero: nat, levels: nat, leaves: seq<nat>, leaf: nat, index: nat)
    requires index < Pow2(levels)
    ensures forall siblings: seq<nat> ::
              |siblings| == levels && PathHash(h, leaf, index, siblings, levels) == Root(h, zero, levels, leaves)
              ==> leaf == LeafAt(zero, leaves, index)
                  || exists l :: 0 <= l < levels && CollidesAt(h, zero, leaves, leaf, index, siblings, l)
    ensures leaf == LeafAt(zero, leaves, index)
            ==> exists siblings: seq<nat> ::
                  |siblings| == levels && PathHash(h, leaf, index, siblings, levels) == Root(h, zero, levels, leaves)
  {
    ShrToRoot(index, levels);
    forall siblings: seq<nat> |
      |siblings| == levels && PathHash(h, leaf, index, siblings, levels) == Root(h, zero, levels, leaves)
      ensures leaf == LeafAt(zero, leaves, index)
              || exists l :: 0 <= l < levels && CollidesAt(h, zero, leaves, leaf, index, siblings, l)
    {
      OpeningIsSound(h, zero, leaves, leaf, index, siblings, levels);
    }
    if leaf == LeafAt(zero, leaves, index) {
      HonestPathOpens(h, zero, leaves, index, levels, levels);
      var siblings := Siblings(h, zero, leaves, index, levels);
      assert PathHash(h, leaf, index, siblings, levels) == Root(h, zero, levels, leaves);
    }
  }
}
