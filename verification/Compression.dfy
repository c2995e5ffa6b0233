/**
 `poseidon2_compress`: the hash the trees are built from, as a permutation of
 two field elements, a feed-forward of the left input and a truncation.
 */
module Compression {
  import opened Wrappers
  import opened Numbers
  import opened MerkleSpec

  /** The host's permutation of two field elements. */
  type Permutation = (nat, nat) -> (nat, nat)

  ghost predicate OnField(perm: Permutation) {
    forall a: nat, b: nat {:trigger perm(a, b)} :: InField(a) && InField(b) ==> InField(perm(a, b).0) && InField(perm(a, b).1)
  }

  ghost predicate InjectiveOnField(perm: Permutation) {
    forall a: nat, b: nat, c: nat, d: nat {:trigger perm(a, b), perm(c, d)} ::
      InField(a) && InField(b) && InField(c) && InField(d) && perm(a, b) == perm(c, d) ==> a == c && b == d
  }

  /** `poseidon2_compress`; `None` is its panic. */
  function Poseidon2Compress(perm: Permutation, left: nat, right: nat): Option<nat> {
    if left >= MODULUS || right >= MODULUS then None
    else
      var sum := perm(left, right).0 + left;
      Some(if sum >= MODULUS then sum % MODULUS else sum)
  }

  /** The hash it gives the trees. */
  function HashOf(perm: Permutation): Hash {
    (a: nat, b: nat) => match Poseidon2Compress(perm, a, b) case Some(x) => x case None => 0
  }

  /**
   It is the guarded hash the trees call; on the field it never leaves the
   field, the sum before reduction fits 256 bits, and it is congruent to that
   sum.
   */
  lemma CompressIsAFieldHash(perm: Permutation)
    requires OnField(perm)
    ensures Closed(HashOf(perm))
    ensures forall a: nat, b: nat :: Poseidon2Compress(perm, a, b) == Compress(HashOf(perm), a, b)
    ensures forall a: nat, b: nat {:trigger perm(a, b)} :: InField(a) && InField(b) ==>
              && perm(a, b).0 + a < 2 * TWO_255
              && (perm(a, b).0 + a == HashOf(perm)(a, b) || perm(a, b).0 + a == HashOf(perm)(a, b) + MODULUS)
  {
  }

  /**
   Two inputs that share one side. On the same left input the hash collides
   exactly when the permutation's kept outputs agree, so a collision is always
   one that the discarded output would tell apart.
   */
  lemma SameLeftCollisions(perm: Permutation, left: nat, r1: nat, r2: nat)
    requires OnField(perm) && InjectiveOnField(perm) && InField(left) && InField(r1) && InField(r2)
    ensures HashOf(perm)(left, r1) == HashOf(perm)(left, r2) <==> perm(left, r1).0 == perm(left, r2).0
    ensures HashOf(perm)(left, r1) == HashOf(perm)(left, r2) && r1 != r2 ==> perm(left, r1).1 != perm(left, r2).1
  {
    CompressIsAFieldHash(perm);
    if perm(left, r1) == perm(left, r2) {
      assert r1 == r2;
    }
  }
}
