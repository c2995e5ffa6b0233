/**
 Completeness of the verifier's equation: a key and a proof built from a
 trapdoor by the formulas of Groth16 (ePrint 2016/260, section 3.2) satisfy it.
 Points are written by their exponents, integers modulo the group order.
 */
module Groth16Trapdoor {
  import opened Groth16Verifier

  /** The secret exponents and the circuit's polynomials at the secret point, a value for each wire. */
  datatype Trapdoor = Trapdoor(alpha: int, beta: int, gamma: int, delta: int, u: seq<int>, v: seq<int>, w: seq<int>)

  /** Wire values, the first of them one and then the public inputs; the quotient's value and two random exponents. */
  datatype Run = Run(a: seq<int>, ht: int, r: int, s: int)

  ghost predicate Divides(order: nat, x: int) {
    exists m: int :: x == Times(order, m)
  }

  function Times(order: nat, m: int): int {
    order * m
  }

  function Weighted(a: seq<int>, k: seq<int>): int
    requires |a| == |k|
  {
    if a == [] then 0 else Weighted(a[..|a| - 1], k[..|k| - 1]) + a[|a| - 1] * k[|k| - 1]
  }

  /** Points are images of exponents, and pairing multiplies exponents modulo the order. */
  ghost predicate InExponents<G1, G2, GT>(order: nat, c: Curve<G1, G2>, t: Target<GT>, e: (G1, G2) -> GT,
                                          g1: int -> G1, g2: int -> G2, gt: int -> GT) {
    && c.zero == g1(0)
    && (forall x, y {:trigger c.add(g1(x), g1(y))} :: c.add(g1(x), g1(y)) == g1(x + y))
    && (forall x, n: nat {:trigger c.mul(g1(x), n)} :: c.mul(g1(x), n) == g1(x * n))
    && (forall x, y {:trigger e(g1(x), g2(y))} :: e(g1(x), g2(y)) == gt(x * y))
    && (forall x, y {:trigger t.mul(gt(x), gt(y))} :: t.mul(gt(x), gt(y)) == gt(x + y))
    && (forall x, y {:trigger Compared(x, y)} :: Divides(order, x - y) ==> gt(x) == gt(y))
  }

  predicate Compared(x: int, y: int) {
    true
  }

  // ---------- Key and proof

  predicate SameWires(td: Trapdoor, run: Run) {
    |td.u| == |td.v| == |td.w| == |run.a|
  }

  /** `beta u + alpha v + w` of one wire. */
  function WireTerm(td: Trapdoor, i: nat): int
    requires i < |td.u| && i < |td.v| && i < |td.w|
  {
    td.beta * td.u[i] + td.alpha * td.v[i] + td.w[i]
  }

  /** The exponents of the key's points for the public wires: each wire's term over gamma. */
  ghost predicate KeyExponents(order: nat, td: Trapdoor, k: seq<int>)
    requires |k| <= |td.u| == |td.v| == |td.w|
  {
    forall i :: 0 <= i < |k| ==> Divides(order, k[i] * td.gamma - WireTerm(td, i))
  }

  /** The wire values satisfy the circuit: U V = W + h t. */
  ghost predicate Satisfies(order: nat, td: Trapdoor, run: Run)
    requires SameWires(td, run)
  {
    Divides(order, Weighted(run.a, td.u) * Weighted(run.a, td.v) - Weighted(run.a, td.w) - run.ht)
  }

  function ExponentA(td: Trapdoor, run: Run): int
    requires SameWires(td, run)
  {
    td.alpha + Weighted(run.a, td.u) + run.r * td.delta
  }

  function ExponentB(td: Trapdoor, run: Run): int
    requires SameWires(td, run)
  {
    td.beta + Weighted(run.a, td.v) + run.s * td.delta
  }

  /** `q` is the private wires' terms and the quotient over delta. */
  ghost predicate PrivatePart(order: nat, td: Trapdoor, run: Run, public: nat, q: int)
    requires SameWires(td, run) && public <= |run.a|
  {
    var a := run.a[public..];
    Divides(order, q * td.delta - (td.beta * Weighted(a, td.u[public..]) + td.alpha * Weighted(a, td.v[public..])
                                   + Weighted(a, td.w[public..]) + run.ht))
  }

  function ExponentC(td: Trapdoor, run: Run, q: int): int
    requires SameWires(td, run)
  {
    q + ExponentA(td, run) * run.s + ExponentB(td, run) * run.r - run.r * run.s * td.delta
  }

  function Points<G>(g: int -> G, k: seq<int>): (r: seq<G>)
    ensures |r| == |k| && forall i :: 0 <= i < |k| ==> r[i] == g(k[i])
  {
    seq(|k|, i requires 0 <= i < |k| => g(k[i]))
  }

  // ---------- Arithmetic

  lemma Combine(order: nat, x: int, y: int, m: int)
    requires Divides(order, x) && Divides(order, y)
    ensures Divides(order, x + m * y)
  {
    var p :| x == Times(order, p);
    var q :| y == Times(order, q);
    assert x + m * y == Times(order, p + m * q) by {
      assert order * (p + m * q) == order * p + order * (m * q);
      assert m * (order * q) == order * (m * q);
    }
  }

  lemma LeftOver(order: nat, d: int, x: int, y: int, z: int)
    requires Divides(order, x) && Divides(order, y) && Divides(order, z) && d == x - y - z
    ensures Divides(order, d)
  {
    Combine(order, x, y, -1);
    Combine(order, x - y, z, -1);
  }

  lemma {:induction false} WeightedConcat(a: seq<int>, b: seq<int>, k: seq<int>, l: seq<int>)
    requires |a| == |k| && |b| == |l|
    ensures Weighted(a + b, k + l) == Weighted(a, k) + Weighted(b, l)
  {
    if b == [] {
      assert a + b == a && k + l == k;
    } else {
      var n := |b| - 1;
      assert (a + b)[..|a + b| - 1] == a + b[..n] && (k + l)[..|k + l| - 1] == k + l[..n];
      WeightedConcat(a, b[..n], k, l[..n]);
    }
  }

  lemma WeightedCons(a: seq<int>, k: seq<int>)
    requires |a| == |k| > 0
    ensures Weighted(a, k) == a[0] * k[0] + Weighted(a[1..], k[1..])
  {
    WeightedConcat([a[0]], a[1..], [k[0]], k[1..]);
    assert [a[0]] + a[1..] == a && [k[0]] + k[1..] == k;
    assert [a[0]][..0] == [] && [k[0]][..0] == [];
  }

  lemma WeightedSplit(a: seq<int>, k: seq<int>, n: nat)
    requires |a| == |k| && n <= |a|
    ensures Weighted(a, k) == Weighted(a[..n], k[..n]) + Weighted(a[n..], k[n..])
  {
    WeightedConcat(a[..n], a[n..], k[..n], k[n..]);
    assert a[..n] + a[n..] == a && k[..n] + k[n..] == k;
  }

  /** The public wires' terms, weighted, are gamma times the key's combination. */
  lemma {:induction false} KeyCombination(order: nat, td: Trapdoor, a: seq<int>, k: seq<int>)
    requires |a| == |k| <= |td.u| == |td.v| == |td.w| && KeyExponents(order, td, k)
    ensures var n := |k|;
            Divides(order, Weighted(a, k) * td.gamma
                           - (td.beta * Weighted(a, td.u[..n]) + td.alpha * Weighted(a, td.v[..n]) + Weighted(a, td.w[..n])))
  {
    assert Divides(order, 0) by {
      assert 0 == Times(order, 0);
    }
    hide Divides;
    var n := |k|;
    if n > 0 {
      var m := n - 1;
      assert KeyExponents(order, td, k[..m]) by {
        forall i | 0 <= i < m
          ensures Divides(order, k[..m][i] * td.gamma - WireTerm(td, i))
        {
          assert k[..m][i] == k[i];
        }
      }
      KeyCombination(order, td, a[..m], k[..m]);
      assert td.u[..n][..m] == td.u[..m] && td.v[..n][..m] == td.v[..m] && td.w[..n][..m] == td.w[..m];
      var K, U, V, W := Weighted(a[..m], k[..m]), Weighted(a[..m], td.u[..m]), Weighted(a[..m], td.v[..m]), Weighted(a[..m], td.w[..m]);
      Combine(order, K * td.gamma - (td.beta * U + td.alpha * V + W), k[m] * td.gamma - WireTerm(td, m), a[m]);
      OneMoreWire(td.beta, td.alpha, td.gamma, K, U, V, W, a[m], k[m], td.u[m], td.v[m], td.w[m]);
    }
  }

  lemma OneMoreWire(beta: int, alpha: int, gamma: int, K: int, U: int, V: int, W: int, a: int, k: int, u: int, v: int, w: int)
    ensures (K * gamma - (beta * U + alpha * V + W)) + a * (k * gamma - (beta * u + alpha * v + w))
            == (K + a * k) * gamma - (beta * (U + a * u) + alpha * (V + a * v) + (W + a * w))
  {
    assert (K + a * k) * gamma == K * gamma + a * (k * gamma);
    assert beta * (U + a * u) == beta * U + a * (beta * u);
    assert alpha * (V + a * v) == alpha * V + a * (alpha * v);
    assert a * (k * gamma - (beta * u + alpha * v + w)) == a * (k * gamma) - a * (beta * u) - a * (alpha * v) - a * w;
  }

  /** The random exponents r and s cancel: A B - alpha beta - C delta = alpha V + beta U + U V - q delta. */
  lemma RandomnessCancels(alpha: int, beta: int, delta: int, U: int, V: int, q: int, r: int, s: int)
    ensures var A, B := alpha + U + r * delta, beta + V + s * delta;
            A * B - alpha * beta - (q + A * s + B * r - r * s * delta) * delta == alpha * V + beta * U + U * V - q * delta
  {
    var x, y, rd, sd := alpha + U, beta + V, r * delta, s * delta;
    var A, B := x + rd, y + sd;
    assert A * B == x * y + x * sd + rd * y + rd * sd;
    assert (q + A * s + B * r - r * s * delta) * delta == q * delta + A * sd + B * rd - rd * sd by {
      assert (A * s) * delta == A * sd && (B * r) * delta == B * rd;
      assert (r * s * delta) * delta == rd * sd;
    }
    assert A * sd == x * sd + rd * sd && B * rd == y * rd + sd * rd;
    assert x * y == alpha * beta + alpha * V + U * beta + U * V;
  }

  // ---------- Acceptance

  lemma TermInExponents<G1, G2, GT>(order: nat, c: Curve<G1, G2>, t: Target<GT>, e: (G1, G2) -> GT,
                                    g1: int -> G1, g2: int -> G2, gt: int -> GT, sum: int, k: int, n: nat)
    requires InExponents(order, c, t, e, g1, g2, gt)
    ensures c.add(g1(sum), c.mul(g1(k), n)) == g1(sum + n * k)
  {
    assert c.mul(g1(k), n) == g1(k * n) && k * n == n * k;
  }

  lemma AddInExponents<G1, G2, GT>(order: nat, c: Curve<G1, G2>, t: Target<GT>, e: (G1, G2) -> GT,
                                   g1: int -> G1, g2: int -> G2, gt: int -> GT, x: int, y: int)
    requires InExponents(order, c, t, e, g1, g2, gt)
    ensures c.add(g1(x), g1(y)) == g1(x + y)
  {
  }

  lemma {:induction false} InnerProductInExponents<G1, G2, GT>(order: nat, c: Curve<G1, G2>, t: Target<GT>, e: (G1, G2) -> GT,
                                                               g1: int -> G1, g2: int -> G2, gt: int -> GT, k: seq<int>, inputs: seq<nat>)
    requires InExponents(order, c, t, e, g1, g2, gt) && |k| == |inputs|
    ensures InnerProduct(c, Points(g1, k), inputs) == g1(Weighted(inputs, k))
  {
    assert k == [] ==> c.zero == g1(0);
    hide InExponents;
    if k != [] {
      var n := |k| - 1;
      InnerProductInExponents(order, c, t, e, g1, g2, gt, k[..n], inputs[..n]);
      assert Points(g1, k)[..n] == Points(g1, k[..n]);
      var wide: seq<int> := inputs;
      assert wide[..n] == inputs[..n];
      TermInExponents(order, c, t, e, g1, g2, gt, Weighted(inputs[..n], k[..n]), k[n], inputs[n]);
    }
  }

  /** The exponents of both sides of the equation agree modulo the order. */
  lemma ExponentsAgree(order: nat, td: Trapdoor, run: Run, k: seq<int>, q: int)
    requires SameWires(td, run) && |k| <= |run.a| && KeyExponents(order, td, k)
    requires Satisfies(order, td, run) && PrivatePart(order, td, run, |k|, q)
    ensures Divides(order, ExponentA(td, run) * ExponentB(td, run)
                           - (td.alpha * td.beta + Weighted(run.a[..|k|], k) * td.gamma + ExponentC(td, run, q) * td.delta))
  {
    hide Divides, Weighted, KeyExponents;
    var n, a := |k|, run.a;
    WeightedSplit(a, td.u, n);
    WeightedSplit(a, td.v, n);
    WeightedSplit(a, td.w, n);
    KeyCombination(order, td, a[..n], k);
    ScalarsAgree(order, td.alpha, td.beta, td.gamma, td.delta,
                 Weighted(a, td.u), Weighted(a, td.v), Weighted(a, td.w),
                 Weighted(a[..n], td.u[..n]), Weighted(a[..n], td.v[..n]), Weighted(a[..n], td.w[..n]),
                 Weighted(a[n..], td.u[n..]), Weighted(a[n..], td.v[n..]), Weighted(a[n..], td.w[n..]),
                 Weighted(a[..n], k), run.ht, q, run.r, run.s,
                 ExponentA(td, run), ExponentB(td, run), ExponentC(td, run, q));
  }

  lemma ScalarsAgree(order: nat, alpha: int, beta: int, gamma: int, delta: int, U: int, V: int, W: int,
                     Up: int, Vp: int, Wp: int, Uq: int, Vq: int, Wq: int,
                     L: int, ht: int, q: int, r: int, s: int, A: int, B: int, C: int)
    requires U == Up + Uq && V == Vp + Vq && W == Wp + Wq
    requires A == alpha + U + r * delta && B == beta + V + s * delta && C == q + A * s + B * r - r * s * delta
    requires Divides(order, U * V - W - ht)
    requires Divides(order, L * gamma - (beta * Up + alpha * Vp + Wp))
    requires Divides(order, q * delta - (beta * Uq + alpha * Vq + Wq + ht))
    ensures Divides(order, A * B - (alpha * beta + L * gamma + C * delta))
  {
    hide Divides;
    ThreeParts(alpha, beta, gamma, delta, U, V, W, Up, Vp, Wp, Uq, Vq, Wq, L, ht, q, r, s, A, B, C);
    LeftOver(order, A * B - (alpha * beta + L * gamma + C * delta), U * V - W - ht,
             L * gamma - (beta * Up + alpha * Vp + Wp), q * delta - (beta * Uq + alpha * Vq + Wq + ht));
  }

  /** The difference of the two sides is what the circuit, the key and the private part leave over. */
  lemma ThreeParts(alpha: int, beta: int, gamma: int, delta: int, U: int, V: int, W: int,
                   Up: int, Vp: int, Wp: int, Uq: int, Vq: int, Wq: int,
                   L: int, ht: int, q: int, r: int, s: int, A: int, B: int, C: int)
    requires U == Up + Uq && V == Vp + Vq && W == Wp + Wq
    requires A == alpha + U + r * delta && B == beta + V + s * delta && C == q + A * s + B * r - r * s * delta
    ensures A * B - (alpha * beta + L * gamma + C * delta)
            == (U * V - W - ht) - (L * gamma - (beta * Up + alpha * Vp + Wp))
               - (q * delta - (beta * Uq + alpha * Vq + Wq + ht))
  {
    RandomnessCancels(alpha, beta, delta, U, V, q, r, s);
    assert beta * U == beta * Up + beta * Uq;
    assert alpha * V == alpha * Vp + alpha * Vq;
  }

  /**
   A proof made from a satisfying assignment with the trapdoor's key passes the
   equation that `verify_with_vk` decides, for the assignment's public inputs.
   */
  lemma HonestProofIsAccepted<G1(!new), G2(!new), GT(!new)>(
    order: nat, c: Curve<G1, G2>, t: Target<GT>, e: (G1, G2) -> GT, g1: int -> G1, g2: int -> G2, gt: int -> GT,
    td: Trapdoor, run: Run, k: seq<int>, q: int, inputs: seq<nat>)
    requires InExponents(order, c, t, e, g1, g2, gt) && SameWires(td, run)
    requires |k| == |inputs| + 1 <= |run.a| && run.a[0] == 1 && forall i :: 0 <= i < |inputs| ==> run.a[i + 1] == inputs[i]
    requires KeyExponents(order, td, k) && Satisfies(order, td, run) && PrivatePart(order, td, run, |k|, q)
    ensures Groth16Holds(c, t, e,
                         VerificationKey(g1(td.alpha), g2(td.beta), g2(td.gamma), g2(td.delta), Points(g1, k)),
                         ProofPoints(g1(ExponentA(td, run)), g2(ExponentB(td, run)), g1(ExponentC(td, run, q))), inputs)
  {
    hide Divides, KeyExponents, Satisfies, PrivatePart, ExponentA, ExponentB, ExponentC, Weighted, InnerProduct, InExponents;
    var A, B, C := ExponentA(td, run), ExponentB(td, run), ExponentC(td, run, q);
    var L := Weighted(run.a[..|k|], k);
    ExponentsAgree(order, td, run, k, q);
    InputCombination(order, c, t, e, g1, g2, gt, run.a[..|k|], k, inputs);
    var ab, lg, cd := td.alpha * td.beta, L * td.gamma, C * td.delta;
    PairsInExponents(order, c, t, e, g1, g2, gt, A, B);
    PairsInExponents(order, c, t, e, g1, g2, gt, td.alpha, td.beta);
    PairsInExponents(order, c, t, e, g1, g2, gt, L, td.gamma);
    PairsInExponents(order, c, t, e, g1, g2, gt, C, td.delta);
    SumsInExponents(order, c, t, e, g1, g2, gt, A * B, ab, lg, cd);
  }

  lemma PairsInExponents<G1, G2, GT>(order: nat, c: Curve<G1, G2>, t: Target<GT>, e: (G1, G2) -> GT,
                                     g1: int -> G1, g2: int -> G2, gt: int -> GT, x: int, y: int)
    requires InExponents(order, c, t, e, g1, g2, gt)
    ensures e(g1(x), g2(y)) == gt(x * y)
  {
  }

  lemma SumsInExponents<G1, G2, GT>(order: nat, c: Curve<G1, G2>, t: Target<GT>, e: (G1, G2) -> GT,
                                    g1: int -> G1, g2: int -> G2, gt: int -> GT, whole: int, x: int, y: int, z: int)
    requires InExponents(order, c, t, e, g1, g2, gt) && Divides(order, whole - (x + y + z))
    ensures gt(whole) == t.mul(t.mul(gt(x), gt(y)), gt(z))
  {
    assert Compared(whole, x + y + z);
    assert t.mul(gt(x), gt(y)) == gt(x + y);
    assert t.mul(gt(x + y), gt(z)) == gt(x + y + z);
  }

  lemma InputCombination<G1, G2, GT>(order: nat, c: Curve<G1, G2>, t: Target<GT>, e: (G1, G2) -> GT,
                                     g1: int -> G1, g2: int -> G2, gt: int -> GT, a: seq<int>, k: seq<int>, inputs: seq<nat>)
    requires InExponents(order, c, t, e, g1, g2, gt)
    requires |a| == |k| == |inputs| + 1 && a[0] == 1 && forall i :: 0 <= i < |inputs| ==> a[i + 1] == inputs[i]
    ensures c.add(Points(g1, k)[0], InnerProduct(c, Points(g1, k)[1..], inputs)) == g1(Weighted(a, k))
  {
    AddInExponents(order, c, t, e, g1, g2, gt, k[0], Weighted(inputs, k[1..]));
    hide InExponents, InnerProduct, Weighted;
    var wide: seq<int> := inputs;
    assert Points(g1, k)[1..] == Points(g1, k[1..]);
    InnerProductInExponents(order, c, t, e, g1, g2, gt, k[1..], inputs);
    WeightedCons(a, k);
    assert a[1..] == wide;
  }

  // ---------- An instance

  /** Integers as points: the pairing is the product, and the check asks for a sum of zero. */
  function SumOfProducts(xs: seq<int>, ys: seq<int>): int {
    if xs == [] || |xs| != |ys| then 0
    else SumOfProducts(xs[..|xs| - 1], ys[..|ys| - 1]) + xs[|xs| - 1] * ys[|ys| - 1]
  }

  function IntegerCurve(): Curve<int, int> {
    Curve(0, (x: int, y: int) => x + y, (x: int, n: nat) => x * n, (x: int) => -x,
          (xs: seq<int>, ys: seq<int>) => SumOfProducts(xs, ys) == 0)
  }

  function IntegerTarget(): Target<int> {
    Target(0, (x: int, y: int) => x + y, (x: int) => -x)
  }

  function IntegerPairing(): (int, int) -> int {
    (x: int, y: int) => x * y
  }

  lemma {:induction false} SumIsPairingProduct(xs: seq<int>, ys: seq<int>)
    requires |xs| == |ys|
    ensures SumOfProducts(xs, ys) == PairingProduct(IntegerTarget(), IntegerPairing(), xs, ys)
  {
    if xs != [] {
      SumIsPairingProduct(xs[..|xs| - 1], ys[..|ys| - 1]);
    }
  }

  lemma IntegersAdd()
    ensures IsMonoid(IntegerCurve())
  {
  }

  lemma IntegersGroup()
    ensures IsAbelian(IntegerTarget())
  {
  }

  lemma IntegersNegate(x: int, y: int)
    ensures IntegerPairing()(IntegerCurve().neg(x), y) == IntegerTarget().inv(IntegerPairing()(x, y))
  {
    assert (-x) * y == -(x * y);
  }

  lemma IntegersCheck(xs: seq<int>, ys: seq<int>)
    requires |xs| == |ys|
    ensures IntegerCurve().pairingCheck(xs, ys) <==> PairingProduct(IntegerTarget(), IntegerPairing(), xs, ys) == IntegerTarget().one
  {
    hide PairingProduct, SumOfProducts;
    SumIsPairingProduct(xs, ys);
  }

  /** The laws asked of the host hold of it. */
  lemma IntegersPair()
    ensures IsMonoid(IntegerCurve()) && IsPairing(IntegerCurve(), IntegerTarget(), IntegerPairing())
  {
    hide IntegerCurve, IntegerTarget, IntegerPairing, PairingProduct, IsMonoid, IsAbelian;
    IntegersAdd();
    IntegersGroup();
    forall x: int, y: int
      ensures IntegerPairing()(IntegerCurve().neg(x), y) == IntegerTarget().inv(IntegerPairing()(x, y))
    {
      IntegersNegate(x, y);
    }
    forall xs: seq<int>, ys: seq<int> | |xs| == |ys|
      ensures IntegerCurve().pairingCheck(xs, ys) <==> PairingProduct(IntegerTarget(), IntegerPairing(), xs, ys) == IntegerTarget().one
    {
      IntegersCheck(xs, ys);
    }
  }

  /** gamma and delta have different places in the equation. */
  lemma GammaAndDeltaDiffer()
    ensures Groth16Holds(IntegerCurve(), IntegerTarget(), IntegerPairing(), VerificationKey(1, 1, 1, 2, [1]), ProofPoints(6, 1, 2), [])
    ensures !Groth16Holds(IntegerCurve(), IntegerTarget(), IntegerPairing(), VerificationKey(1, 1, 2, 1, [1]), ProofPoints(6, 1, 2), [])
  {
  }
}
