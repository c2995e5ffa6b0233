/** Machine integers and the BN254 scalar field size. */
module Numbers {

  /** The BN254 scalar field modulus, `BN256_MOD_BYTES`. */
  const MODULUS: nat := 0x30644e72e131a029b85045b68181585d2833e84879b9709143e1f593f0000001

  const TWO_32: nat := 0x1_0000_0000
  const TWO_64: nat := 0x1_0000_0000_0000_0000
  const TWO_127: int := 0x8000_0000_0000_0000_0000_0000_0000_0000
  const TWO_248: int := 0x1_0000_0000_0000_0000_0000_0000_0000_0000_0000_0000_0000_0000_0000_0000_0000_00
  const TWO_255: int := 0x8000_0000_0000_0000_0000_0000_0000_0000_0000_0000_0000_0000_0000_0000_0000_0000

  predicate InField(x: int) {
    0 <= x < MODULUS
  }

  predicate AllInField(xs: seq<nat>) {
    forall i :: 0 <= i < |xs| ==> InField(xs[i])
  }

  function Pow2(n: nat): (r: nat)
    ensures r > 0
  {
    if n == 0 then 1 else 2 * Pow2(n - 1)
  }

  /** `x >> n` on an unsigned integer. */
  function Shr(x: nat, n: nat): nat {
    if n == 0 then x else Shr(x, n - 1) / 2
  }

  lemma {:induction false} Pow2Monotone(a: nat, b: nat)
    requires a <= b
    ensures Pow2(a) <= Pow2(b)
    decreases b
  {
    if a < b {
      Pow2Monotone(a, b - 1);
    }
  }

  lemma Pow2Of32()
    ensures Pow2(32) == TWO_32
  {
    assert Pow2(4) == 16;
    assert Pow2(8) == 16 * Pow2(4);
    assert Pow2(12) == 16 * Pow2(8);
    assert Pow2(16) == 16 * Pow2(12);
    assert Pow2(20) == 16 * Pow2(16);
    assert Pow2(24) == 16 * Pow2(20);
    assert Pow2(28) == 16 * Pow2(24);
  }

  /** A tree of at most 32 levels has at most 2^32 leaves. */
  lemma CapacityBound(levels: nat)
    requires levels <= 32
    ensures Pow2(levels) <= TWO_32
  {
    Pow2Monotone(levels, 32);
    Pow2Of32();
  }

  lemma {:induction false} ShrMonotone(x: nat, y: nat, n: nat)
    requires x <= y
    ensures Shr(x, n) <= Shr(y, n)
  {
    if n > 0 {
      ShrMonotone(x, y, n - 1);
    }
  }

  /** A predecessor shifts to the same place or to the place before. */
  lemma {:induction false} ShrPredecessor(x: nat, n: nat)
    requires x > 0
    ensures Shr(x - 1, n) <= Shr(x, n) <= Shr(x - 1, n) + 1
  {
    if n > 0 {
      ShrPredecessor(x, n - 1);
    }
  }

  /** The right neighbour of an even number shares all its ancestors. */
  lemma {:induction false} ShrSibling(x: nat, n: nat)
    requires x % 2 == 0 && n > 0
    ensures Shr(x + 1, n) == Shr(x, n)
  {
    if n == 1 {
      assert Shr(x, 1) == Shr(x, 0) / 2 && Shr(x + 1, 1) == Shr(x + 1, 0) / 2;
    } else {
      ShrSibling(x, n - 1);
    }
  }

  lemma {:induction false} ShrBound(x: nat, n: nat, m: nat)
    requires n <= m && x < Pow2(m)
    ensures Shr(x, n) < Pow2(m - n)
  {
    if n > 0 {
      ShrBound(x, n - 1, m);
    }
  }

  lemma {:induction false} Pow2Even(n: nat)
    requires n > 0
    ensures Pow2(n) % 2 == 0 && Pow2(n) >= 2
  {
    assert Pow2(n) == 2 * Pow2(n - 1);
  }

  lemma {:induction false} Pow2Add(a: nat, b: nat)
    ensures Pow2(a + b) == Pow2(a) * Pow2(b)
  {
    if b == 0 {
      assert Pow2(0) == 1;
    } else {
      Pow2Add(a, b - 1);
      assert Pow2(a + b) == 2 * Pow2(a + b - 1);
    }
  }

  /** The limits are the powers of two they are named after. */
  lemma LimitsArePowers()
    ensures TWO_64 == Pow2(64) && TWO_127 == Pow2(127) && TWO_248 == Pow2(248) && TWO_255 == Pow2(255)
  {
    assert Pow2(8) == 256 by {
      assert Pow2(4) == 16;
      Pow2Add(4, 4);
    }
    assert Pow2(128) == 2 * Pow2(127) && Pow2(256) == 2 * Pow2(255);
    hide Pow2;
    Pow2Of32();
    Pow2Add(32, 32);
    Pow2Add(64, 64);
    Pow2Add(128, 128);
    Pow2Add(248, 8);
  }
}
