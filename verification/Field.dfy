/**
 A field, as the operations of `PrimeField` the code uses. The laws are stated
 once in `IsField` and brought in one instance at a time by the lemmas below.
 */
module Field {

  datatype Field<!F> = Field(
    zero: F,
    one: F,
    add: (F, F) -> F,
    mul: (F, F) -> F,
    neg: F -> F,
    inv: F -> F)

  // Marks on which the laws are instantiated.
  predicate Law1<F>(x: F) { true }
  predicate Law2<F>(x: F, y: F) { true }
  predicate Law3<F>(x: F, y: F, z: F) { true }

  ghost predicate IsField<F(!new)>(f: Field<F>) {
    && f.one != f.zero
    && (forall x {:trigger Law1(x)} ::
          && f.add(x, f.zero) == x && f.mul(x, f.one) == x && f.add(x, f.neg(x)) == f.zero
          && (x != f.zero ==> f.mul(x, f.inv(x)) == f.one))
    && (forall x, y {:trigger Law2(x, y)} :: f.add(x, y) == f.add(y, x) && f.mul(x, y) == f.mul(y, x))
    && (forall x, y, z {:trigger Law3(x, y, z)} ::
          && f.add(f.add(x, y), z) == f.add(x, f.add(y, z))
          && f.mul(f.mul(x, y), z) == f.mul(x, f.mul(y, z))
          && f.mul(x, f.add(y, z)) == f.add(f.mul(x, y), f.mul(x, z)))
  }

  function Sub<F>(f: Field<F>, x: F, y: F): F {
    f.add(x, f.neg(y))
  }

  lemma Basic<F(!new)>(f: Field<F>, x: F)
    requires IsField(f)
    ensures f.add(x, f.zero) == x && f.mul(x, f.one) == x && f.add(x, f.neg(x)) == f.zero
    ensures f.add(f.zero, x) == x && f.mul(f.one, x) == x && f.add(f.neg(x), x) == f.zero
  {
    assert Law1(x) && Law2(f.zero, x) && Law2(f.one, x) && Law2(f.neg(x), x);
  }

  lemma Inverse<F(!new)>(f: Field<F>, x: F)
    requires IsField(f) && x != f.zero
    ensures f.mul(x, f.inv(x)) == f.one && f.mul(f.inv(x), x) == f.one
  {
    assert Law1(x) && Law2(f.inv(x), x);
  }

  lemma AddComm<F(!new)>(f: Field<F>, x: F, y: F)
    requires IsField(f)
    ensures f.add(x, y) == f.add(y, x)
  {
    assert Law2(x, y);
  }

  lemma MulComm<F(!new)>(f: Field<F>, x: F, y: F)
    requires IsField(f)
    ensures f.mul(x, y) == f.mul(y, x)
  {
    assert Law2(x, y);
  }

  lemma AddAssoc<F(!new)>(f: Field<F>, x: F, y: F, z: F)
    requires IsField(f)
    ensures f.add(f.add(x, y), z) == f.add(x, f.add(y, z))
  {
    assert Law3(x, y, z);
  }

  lemma MulAssoc<F(!new)>(f: Field<F>, x: F, y: F, z: F)
    requires IsField(f)
    ensures f.mul(f.mul(x, y), z) == f.mul(x, f.mul(y, z))
  {
    assert Law3(x, y, z);
  }

  lemma Distrib<F(!new)>(f: Field<F>, x: F, y: F, z: F)
    requires IsField(f)
    ensures f.mul(x, f.add(y, z)) == f.add(f.mul(x, y), f.mul(x, z))
    ensures f.mul(f.add(y, z), x) == f.add(f.mul(y, x), f.mul(z, x))
  {
    assert Law3(x, y, z) && Law2(f.add(y, z), x) && Law2(y, x) && Law2(z, x);
  }

  /** (a + b) + (c + d) = (a + c) + (b + d) */
  lemma AddSwap<F(!new)>(f: Field<F>, a: F, b: F, c: F, d: F)
    requires IsField(f)
    ensures f.add(f.add(a, b), f.add(c, d)) == f.add(f.add(a, c), f.add(b, d))
  {
    AddAssoc(f, a, b, f.add(c, d));
    AddAssoc(f, b, c, d);
    AddComm(f, b, c);
    AddAssoc(f, c, b, d);
    AddAssoc(f, a, c, f.add(b, d));
  }

  lemma AddCancel<F(!new)>(f: Field<F>, x: F, y: F, z: F)
    requires IsField(f) && f.add(x, z) == f.add(y, z)
    ensures x == y
  {
    AddAssoc(f, x, z, f.neg(z));
    AddAssoc(f, y, z, f.neg(z));
    Basic(f, x);
    Basic(f, y);
    Basic(f, z);
  }

  lemma MulZero<F(!new)>(f: Field<F>, x: F)
    requires IsField(f)
    ensures f.mul(x, f.zero) == f.zero && f.mul(f.zero, x) == f.zero
  {
    Distrib(f, x, f.zero, f.zero);
    Basic(f, f.zero);
    Basic(f, f.mul(x, f.zero));
    AddCancel(f, f.mul(x, f.zero), f.zero, f.mul(x, f.zero));
    MulComm(f, x, f.zero);
  }

  lemma NegMul<F(!new)>(f: Field<F>, x: F, y: F)
    requires IsField(f)
    ensures f.mul(f.neg(x), y) == f.neg(f.mul(x, y)) && f.mul(y, f.neg(x)) == f.neg(f.mul(y, x))
  {
    Distrib(f, y, f.neg(x), x);
    MulZero(f, y);
    Basic(f, x);
    Basic(f, f.mul(x, y));
    MulComm(f, x, y);
    MulComm(f, f.neg(x), y);
    AddCancel(f, f.mul(f.neg(x), y), f.neg(f.mul(x, y)), f.mul(x, y));
  }

  /** x - y + y = x */
  lemma SubAdd<F(!new)>(f: Field<F>, x: F, y: F)
    requires IsField(f)
    ensures f.add(Sub(f, x, y), y) == x && Sub(f, f.add(x, y), y) == x
  {
    AddAssoc(f, x, f.neg(y), y);
    AddAssoc(f, x, y, f.neg(y));
    Basic(f, y);
    Basic(f, x);
  }

  /** Multiplication by a nonzero element can be undone. */
  lemma MulUndo<F(!new)>(f: Field<F>, c: F, x: F)
    requires IsField(f) && c != f.zero
    ensures f.mul(f.inv(c), f.mul(c, x)) == x && f.mul(c, f.mul(f.inv(c), x)) == x
    ensures f.mul(f.mul(x, c), f.inv(c)) == x && f.mul(f.mul(x, f.inv(c)), c) == x
  {
    Inverse(f, c);
    MulAssoc(f, f.inv(c), c, x);
    MulAssoc(f, c, f.inv(c), x);
    MulAssoc(f, x, c, f.inv(c));
    MulAssoc(f, x, f.inv(c), c);
    Basic(f, x);
  }

  lemma NonzeroProduct<F(!new)>(f: Field<F>, x: F, y: F)
    requires IsField(f) && f.mul(x, y) == f.zero && x != f.zero
    ensures y == f.zero
  {
    MulUndo(f, x, y);
    MulZero(f, f.inv(x));
  }

  // ---------- Small integers

  /** 1 + ... + 1, `n` times. */
  function FromNat<F>(f: Field<F>, n: nat): F {
    if n == 0 then f.zero else f.add(FromNat(f, n - 1), f.one)
  }

  lemma {:induction false} FromNatAdd<F(!new)>(f: Field<F>, a: nat, b: nat)
    requires IsField(f)
    ensures FromNat(f, a + b) == f.add(FromNat(f, a), FromNat(f, b))
  {
    if b == 0 {
      Basic(f, FromNat(f, a));
    } else {
      FromNatAdd(f, a, b - 1);
      AddAssoc(f, FromNat(f, a), FromNat(f, b - 1), f.one);
    }
  }

  lemma FromNatOne<F(!new)>(f: Field<F>)
    requires IsField(f)
    ensures FromNat(f, 0) == f.zero && FromNat(f, 1) == f.one
  {
    Basic(f, f.one);
  }
}
