/**
 `CircomGroth16Verifier`: the public-input count check, the accumulation of
 the input commitment and the pairing check, over an abstract BN254.
 */
module Groth16Verifier {
  import opened Wrappers
  import opened PoolTypes
  import VerifierBoundary

  /** The host's curve operations. */
  datatype Curve<!G1, !G2> = Curve(
    zero: G1,
    add: (G1, G1) -> G1,
    mul: (G1, nat) -> G1,
    neg: G1 -> G1,
    pairingCheck: (seq<G1>, seq<G2>) -> bool)

  datatype VerificationKey<G1, G2> = VerificationKey(alpha: G1, beta: G2, gamma: G2, delta: G2, ic: seq<G1>)

  datatype ProofPoints<G1, G2> = ProofPoints(a: G1, b: G2, c: G1)

  /** Addition is associative and `zero` is neutral. */
  ghost predicate IsMonoid<G1(!new), G2>(c: Curve<G1, G2>) {
    && (forall x, y, z {:trigger c.add(c.add(x, y), z)} :: c.add(c.add(x, y), z) == c.add(x, c.add(y, z)))
    && (forall x {:trigger c.add(x, c.zero)} :: c.add(x, c.zero) == x)
  }

  // ---------- Pairings

  /** The group the pairing maps to, written multiplicatively. */
  datatype Target<!GT> = Target(one: GT, mul: (GT, GT) -> GT, inv: GT -> GT)

  ghost predicate IsAbelian<GT(!new)>(t: Target<GT>) {
    && (forall x {:trigger t.mul(x, t.one)} {:trigger t.inv(x)} :: t.mul(x, t.one) == x && t.mul(x, t.inv(x)) == t.one)
    && (forall x, y {:trigger t.mul(x, y)} :: t.mul(x, y) == t.mul(y, x))
    && (forall x, y, z {:trigger Grouped(x, y, z)} :: t.mul(t.mul(x, y), z) == t.mul(x, t.mul(y, z)))
  }

  predicate Grouped<GT>(x: GT, y: GT, z: GT) {
    true
  }

  /** The product of the pairings of two lists of points. */
  function PairingProduct<G1, G2, GT>(t: Target<GT>, e: (G1, G2) -> GT, xs: seq<G1>, ys: seq<G2>): GT
    requires |xs| == |ys|
  {
    if xs == [] then t.one
    else
      var n := |xs| - 1;
      t.mul(PairingProduct(t, e, xs[..n], ys[..n]), e(xs[n], ys[n]))
  }

  /** `e` turns negation into inversion, and the host's check asks whether a product of pairings is one. */
  ghost predicate IsPairing<G1(!new), G2(!new), GT(!new)>(c: Curve<G1, G2>, t: Target<GT>, e: (G1, G2) -> GT) {
    && IsAbelian(t)
    && (forall x, y {:trigger e(c.neg(x), y)} :: e(c.neg(x), y) == t.inv(e(x, y)))
    && (forall xs: seq<G1>, ys: seq<G2> {:trigger c.pairingCheck(xs, ys)} :: |xs| == |ys| ==>
          (c.pairingCheck(xs, ys) <==> PairingProduct(t, e, xs, ys) == t.one))
  }

  lemma InverseOfProduct<GT(!new)>(t: Target<GT>, x: GT, y: GT)
    requires IsAbelian(t)
    ensures t.mul(t.inv(x), y) == t.one <==> x == y
  {
    if t.mul(t.inv(x), y) == t.one {
      assert Grouped(x, t.inv(x), y);
      assert t.mul(t.mul(x, t.inv(x)), y) == t.mul(x, t.one);
      assert t.mul(t.one, y) == y;
    }
  }

  // ---------- The equation

  /** The sum of `inputs[i] * points[i]`. */
  function InnerProduct<G1, G2>(c: Curve<G1, G2>, points: seq<G1>, inputs: seq<nat>): G1
    requires |points| == |inputs|
  {
    if points == [] then c.zero
    else
      var n := |points| - 1;
      c.add(InnerProduct(c, points[..n], inputs[..n]), c.mul(points[n], inputs[n]))
  }

  /** The Groth16 equation: e(A, B) = e(alpha, beta) e(ic[0] + sum of inputs[i] ic[i + 1], gamma) e(C, delta). */
  predicate Groth16Holds<G1, G2, GT(==)>(c: Curve<G1, G2>, t: Target<GT>, e: (G1, G2) -> GT,
                                         vk: VerificationKey<G1, G2>, p: ProofPoints<G1, G2>, inputs: seq<nat>)
    requires |vk.ic| == |inputs| + 1
  {
    e(p.a, p.b) == t.mul(t.mul(e(vk.alpha, vk.beta), e(c.add(vk.ic[0], InnerProduct(c, vk.ic[1..], inputs)), vk.gamma)),
                         e(p.c, vk.delta))
  }

  /** A product of four pairings, the first of a negated point. */
  lemma FourPairings<G1(!new), G2(!new), GT(!new)>(c: Curve<G1, G2>, t: Target<GT>, e: (G1, G2) -> GT,
                                                   a: G1, x: G1, y: G1, z: G1, b: G2, u: G2, v: G2, w: G2)
    requires IsPairing(c, t, e)
    ensures c.pairingCheck([c.neg(a), x, y, z], [b, u, v, w])
            <==> e(a, b) == t.mul(t.mul(e(x, u), e(y, v)), e(z, w))
  {
    var xs, ys := [c.neg(a), x, y, z], [b, u, v, w];
    var p0, p1, p2, p3 := e(c.neg(a), b), e(x, u), e(y, v), e(z, w);
    assert xs[..3] == [c.neg(a), x, y] && ys[..3] == [b, u, v];
    assert xs[..3][..2] == [c.neg(a), x] && ys[..3][..2] == [b, u];
    assert xs[..3][..2][..1] == [c.neg(a)] && ys[..3][..2][..1] == [b];
    assert [c.neg(a)][..0] == [] && [b][..0] == [];
    assert PairingProduct(t, e, [c.neg(a)], [b]) == t.mul(t.one, p0) == p0;
    assert PairingProduct(t, e, [c.neg(a), x], [b, u]) == t.mul(p0, p1);
    assert PairingProduct(t, e, [c.neg(a), x, y], [b, u, v]) == t.mul(t.mul(p0, p1), p2);
    assert PairingProduct(t, e, xs, ys) == t.mul(t.mul(t.mul(p0, p1), p2), p3);
    assert Grouped(p0, p1, p2) && Grouped(p0, t.mul(p1, p2), p3);
    InverseOfProduct(t, e(a, b), t.mul(t.mul(p1, p2), p3));
  }

  /**
   `verify_with_vk`: refuses a wrong number of inputs, and otherwise decides the
   Groth16 equation, whatever pairing stands behind the host's check.
   */
  method VerifyWithVk<G1(!new), G2(!new), GT(!new)>(c: Curve<G1, G2>, ghost t: Target<GT>, ghost e: (G1, G2) -> GT,
                                                    vk: VerificationKey<G1, G2>, p: ProofPoints<G1, G2>, inputs: seq<nat>)
    returns (r: Result<bool, Groth16Error>)
    requires IsMonoid(c) && IsPairing(c, t, e)
    ensures |inputs| + 1 != |vk.ic| <==> r == Err(MalformedPublicInputs)
    ensures |inputs| + 1 == |vk.ic| ==>
              r == if Groth16Holds(c, t, e, vk, p, inputs) then Ok(true) else Err(Groth16Error.InvalidProof)
  {
    hide IsPairing;
    if |inputs| + 1 != |vk.ic| {
      return Err(MalformedPublicInputs);
    }
    var vkX := vk.ic[0];
    ghost var points := vk.ic[1..];
    assert c.add(vkX, c.zero) == vkX;
    var i := 0;
    while i < |inputs|
      invariant 0 <= i <= |inputs|
      invariant vkX == c.add(vk.ic[0], InnerProduct(c, points[..i], inputs[..i]))
    {
      assert points[..i + 1][..i] == points[..i] && inputs[..i + 1][..i] == inputs[..i];
      var prod := c.mul(vk.ic[i + 1], inputs[i]);
      vkX := c.add(vkX, prod);
      i := i + 1;
    }
    assert points[..i] == points && inputs[..i] == inputs;
    FourPairings(c, t, e, p.a, vk.alpha, vkX, p.c, p.b, vk.beta, vk.gamma, vk.delta);
    if c.pairingCheck([c.neg(p.a), vk.alpha, vkX, p.c], [p.b, vk.beta, vk.gamma, vk.delta]) {
      return Ok(true);
    } else {
      return Err(Groth16Error.InvalidProof);
    }
  }

  /** Where pairing with delta is injective, the key, the inputs, A and B leave only one C. */
  lemma OnlyOneC<G1(!new), G2(!new), GT(!new)>(c: Curve<G1, G2>, t: Target<GT>, e: (G1, G2) -> GT,
                                               vk: VerificationKey<G1, G2>, p: ProofPoints<G1, G2>, other: G1, inputs: seq<nat>)
    requires IsPairing(c, t, e) && |vk.ic| == |inputs| + 1
    requires forall x, y {:trigger e(x, vk.delta), e(y, vk.delta)} :: e(x, vk.delta) == e(y, vk.delta) ==> x == y
    requires Groth16Holds(c, t, e, vk, p, inputs) && Groth16Holds(c, t, e, vk, p.(c := other), inputs)
    ensures other == p.c
  {
    var known := t.mul(e(vk.alpha, vk.beta), e(c.add(vk.ic[0], InnerProduct(c, vk.ic[1..], inputs)), vk.gamma));
    Cancels(t, known, e(p.c, vk.delta), e(other, vk.delta));
  }

  lemma Cancels<GT(!new)>(t: Target<GT>, x: GT, y: GT, z: GT)
    requires IsAbelian(t) && t.mul(x, y) == t.mul(x, z)
    ensures y == z
  {
    assert Grouped(t.inv(x), x, y) && Grouped(t.inv(x), x, z);
    assert t.mul(t.inv(x), x) == t.one;
    assert t.mul(t.one, y) == y && t.mul(t.one, z) == z;
  }

  /** `VK_IC_COUNT` of the embedded key. */
  const VK_IC_COUNT: nat := 10

  /** Under the embedded key a proof is checked at all only with exactly two nullifiers. */
  lemma EmbeddedKeyTakesTwoNullifiers(p: Proof)
    ensures |VerifierBoundary.PublicInputs(p)| + 1 == VK_IC_COUNT <==> |p.inputNullifiers| == 2
  {
    VerifierBoundary.PublicInputsAt(p);
  }
}
