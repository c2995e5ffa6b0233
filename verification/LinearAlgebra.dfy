/** Vectors and matrices over a field: dot products, row combinations and the maps they define. */
module LinearAlgebra {
  import opened Field

  type Vec<F> = seq<F>
  type Mat<F> = seq<seq<F>>

  predicate Square<F>(m: Mat<F>, n: nat) {
    |m| == n && forall i :: 0 <= i < n ==> |m[i]| == n
  }

  function Dot<F>(f: Field<F>, x: Vec<F>, y: Vec<F>): F
    requires |x| == |y|
  {
    if |x| == 0 then f.zero
    else
      var n := |x| - 1;
      f.add(Dot(f, x[..n], y[..n]), f.mul(x[n], y[n]))
  }

  function AddV<F>(f: Field<F>, x: Vec<F>, y: Vec<F>): (r: Vec<F>)
    requires |x| == |y|
    ensures |r| == |x| && forall i :: 0 <= i < |r| ==> r[i] == f.add(x[i], y[i])
  {
    seq(|x|, i requires 0 <= i < |x| && |x| == |y| => f.add(x[i], y[i]))
  }

  function ScaleV<F>(f: Field<F>, c: F, x: Vec<F>): (r: Vec<F>)
    ensures |r| == |x| && forall i :: 0 <= i < |r| ==> r[i] == f.mul(c, x[i])
  {
    seq(|x|, i requires 0 <= i < |x| => f.mul(c, x[i]))
  }

  function Zeros<F>(f: Field<F>, n: nat): (r: Vec<F>)
    ensures |r| == n && forall i :: 0 <= i < n ==> r[i] == f.zero
  {
    seq(n, _ => f.zero)
  }

  /** The `i`-th unit vector. */
  function Unit<F>(f: Field<F>, n: nat, i: nat): (r: Vec<F>)
    ensures |r| == n && forall j :: 0 <= j < n ==> r[j] == if i == j then f.one else f.zero
  {
    seq(n, j => if i == j then f.one else f.zero)
  }

  /** `m` applied to `v`. */
  function MatVec<F>(f: Field<F>, m: Mat<F>, v: Vec<F>): (r: Vec<F>)
    requires forall i :: 0 <= i < |m| ==> |m[i]| == |v|
    ensures |r| == |m| && forall i :: 0 <= i < |r| ==> r[i] == Dot(f, m[i], v)
  {
    seq(|m|, i requires 0 <= i < |m| && |m[i]| == |v| => Dot(f, m[i], v))
  }

  /** The combination of the rows of `m` with coefficients `x`: the row vector x times m. */
  function Comb<F>(f: Field<F>, x: Vec<F>, m: Mat<F>, n: nat): (r: Vec<F>)
    requires |x| == |m| && forall i :: 0 <= i < |m| ==> |m[i]| == n
    ensures |r| == n
  {
    if |x| == 0 then Zeros(f, n)
    else
      var k := |x| - 1;
      AddV(f, Comb(f, x[..k], m[..k], n), ScaleV(f, x[k], m[k]))
  }

  // ---------- The dot product is bilinear

  lemma {:induction false} DotAddLeft<F(!new)>(f: Field<F>, x: Vec<F>, y: Vec<F>, v: Vec<F>)
    requires IsField(f) && |x| == |y| == |v|
    ensures Dot(f, AddV(f, x, y), v) == f.add(Dot(f, x, v), Dot(f, y, v))
  {
    if |x| == 0 {
      Basic(f, f.zero);
    } else {
      var n := |x| - 1;
      DotAddLeft(f, x[..n], y[..n], v[..n]);
      assert AddV(f, x, y)[..n] == AddV(f, x[..n], y[..n]);
      Distrib(f, v[n], x[n], y[n]);
      AddSwap(f, Dot(f, x[..n], v[..n]), Dot(f, y[..n], v[..n]), f.mul(x[n], v[n]), f.mul(y[n], v[n]));
    }
  }

  lemma {:induction false} DotScaleLeft<F(!new)>(f: Field<F>, c: F, x: Vec<F>, v: Vec<F>)
    requires IsField(f) && |x| == |v|
    ensures Dot(f, ScaleV(f, c, x), v) == f.mul(c, Dot(f, x, v))
  {
    if |x| == 0 {
      MulZero(f, c);
    } else {
      var n := |x| - 1;
      DotScaleLeft(f, c, x[..n], v[..n]);
      assert ScaleV(f, c, x)[..n] == ScaleV(f, c, x[..n]);
      MulAssoc(f, c, x[n], v[n]);
      Distrib(f, c, Dot(f, x[..n], v[..n]), f.mul(x[n], v[n]));
    }
  }

  lemma {:induction false} DotComm<F(!new)>(f: Field<F>, x: Vec<F>, y: Vec<F>)
    requires IsField(f) && |x| == |y|
    ensures Dot(f, x, y) == Dot(f, y, x)
  {
    if |x| > 0 {
      var n := |x| - 1;
      DotComm(f, x[..n], y[..n]);
      MulComm(f, x[n], y[n]);
    }
  }

  lemma {:induction false} DotAddRight<F(!new)>(f: Field<F>, v: Vec<F>, x: Vec<F>, y: Vec<F>)
    requires IsField(f) && |x| == |y| == |v|
    ensures Dot(f, v, AddV(f, x, y)) == f.add(Dot(f, v, x), Dot(f, v, y))
  {
    DotComm(f, v, AddV(f, x, y));
    DotAddLeft(f, x, y, v);
    DotComm(f, v, x);
    DotComm(f, v, y);
  }

  lemma {:induction false} DotZeros<F(!new)>(f: Field<F>, n: nat, v: Vec<F>)
    requires IsField(f) && |v| == n
    ensures Dot(f, Zeros(f, n), v) == f.zero
  {
    if n > 0 {
      DotZeros(f, n - 1, v[..n - 1]);
      assert Zeros(f, n)[..n - 1] == Zeros(f, n - 1);
      MulZero(f, v[n - 1]);
      Basic(f, f.zero);
    }
  }

  lemma {:induction false} DotUnit<F(!new)>(f: Field<F>, n: nat, i: nat, v: Vec<F>)
    requires IsField(f) && |v| == n && i < n
    ensures Dot(f, Unit(f, n, i), v) == v[i]
  {
    var k := n - 1;
    MulZero(f, v[k]);
    Basic(f, v[k]);
    if i == k {
      assert Unit(f, n, i)[..k] == Zeros(f, k);
      DotZeros(f, k, v[..k]);
    } else {
      assert Unit(f, n, i)[..k] == Unit(f, k, i);
      DotUnit(f, k, i, v[..k]);
      Basic(f, v[i]);
    }
  }

  /** (x m) . v = x . (m v) */
  lemma {:induction false} CombDot<F(!new)>(f: Field<F>, x: Vec<F>, m: Mat<F>, v: Vec<F>)
    requires IsField(f) && |x| == |m| && forall i :: 0 <= i < |m| ==> |m[i]| == |v|
    ensures Dot(f, Comb(f, x, m, |v|), v) == Dot(f, x, MatVec(f, m, v))
  {
    if |x| == 0 {
      DotZeros(f, |v|, v);
    } else {
      var k := |x| - 1;
      CombDot(f, x[..k], m[..k], v);
      assert MatVec(f, m, v)[..k] == MatVec(f, m[..k], v);
      DotAddLeft(f, Comb(f, x[..k], m[..k], |v|), ScaleV(f, x[k], m[k]), v);
      DotScaleLeft(f, x[k], m[k], v);
    }
  }

  lemma {:induction false} CombZero<F(!new)>(f: Field<F>, m: Mat<F>, n: nat)
    requires IsField(f) && forall i :: 0 <= i < |m| ==> |m[i]| == n
    ensures Comb(f, Zeros(f, |m|), m, n) == Zeros(f, n)
  {
    if |m| > 0 {
      var k := |m| - 1;
      CombZero(f, m[..k], n);
      assert Zeros(f, |m|)[..k] == Zeros(f, k);
      forall j | 0 <= j < n
        ensures Comb(f, Zeros(f, |m|), m, n)[j] == f.zero
      {
        MulZero(f, m[k][j]);
        Basic(f, f.zero);
      }
    }
  }

  /** Combining with x + c y combines with x and adds c times the combination with y. */
  lemma {:induction false} CombLinear<F(!new)>(f: Field<F>, x: Vec<F>, c: F, y: Vec<F>, m: Mat<F>, n: nat)
    requires IsField(f) && |x| == |y| == |m| && forall i :: 0 <= i < |m| ==> |m[i]| == n
    ensures Comb(f, AddV(f, x, ScaleV(f, c, y)), m, n) == AddV(f, Comb(f, x, m, n), ScaleV(f, c, Comb(f, y, m, n)))
  {
    var z := AddV(f, x, ScaleV(f, c, y));
    var left, right := Comb(f, z, m, n), AddV(f, Comb(f, x, m, n), ScaleV(f, c, Comb(f, y, m, n)));
    if |m| == 0 {
      forall j | 0 <= j < n
        ensures left[j] == right[j]
      {
        MulZero(f, c);
        Basic(f, f.zero);
      }
    } else {
      var k := |m| - 1;
      CombLinear(f, x[..k], c, y[..k], m[..k], n);
      assert z[..k] == AddV(f, x[..k], ScaleV(f, c, y[..k]));
      forall j | 0 <= j < n
        ensures left[j] == right[j]
      {
        var a, b := Comb(f, x[..k], m[..k], n)[j], Comb(f, y[..k], m[..k], n)[j];
        Distrib(f, m[k][j], x[k], f.mul(c, y[k]));
        MulAssoc(f, c, y[k], m[k][j]);
        Distrib(f, c, b, f.mul(y[k], m[k][j]));
        AddSwap(f, a, f.mul(c, b), f.mul(x[k], m[k][j]), f.mul(c, f.mul(y[k], m[k][j])));
      }
    }
  }

  lemma {:induction false} CombUnit<F(!new)>(f: Field<F>, i: nat, m: Mat<F>, n: nat)
    requires IsField(f) && i < |m| && forall k :: 0 <= k < |m| ==> |m[k]| == n
    ensures Comb(f, Unit(f, |m|, i), m, n) == m[i]
  {
    var k := |m| - 1;
    var r := Comb(f, Unit(f, |m|, i), m, n);
    if i == k {
      assert Unit(f, |m|, i)[..k] == Zeros(f, k);
      CombZero(f, m[..k], n);
    } else {
      assert Unit(f, |m|, i)[..k] == Unit(f, k, i);
      CombUnit(f, i, m[..k], n);
    }
    forall j | 0 <= j < n
      ensures r[j] == m[i][j]
    {
      MulZero(f, m[k][j]);
      Basic(f, m[k][j]);
      Basic(f, m[i][j]);
    }
  }

  // ---------- Inverses

  /** Every row of `l` combines the rows of `m` to a unit vector: l m = 1. */
  ghost predicate LeftInverse<F(!new)>(f: Field<F>, l: Mat<F>, m: Mat<F>, n: nat)
    requires Square(l, n) && Square(m, n)
  {
    forall i :: 0 <= i < n ==> Comb(f, l[i], m, n) == Unit(f, n, i)
  }

  /** `m` sends different vectors to different vectors. */
  ghost predicate Injective<F(!new)>(f: Field<F>, m: Mat<F>, n: nat)
    requires Square(m, n)
  {
    forall v: Vec<F>, w: Vec<F> {:trigger Law2(v, w)} ::
      |v| == n && |w| == n && MatVec(f, m, v) == MatVec(f, m, w) ==> v == w
  }

  /** `l` undoes `m` and `m` undoes `l`. */
  ghost predicate Inverses<F(!new)>(f: Field<F>, l: Mat<F>, m: Mat<F>, n: nat)
    requires Square(l, n) && Square(m, n)
  {
    forall v: Vec<F> {:trigger Law1(v)} ::
      |v| == n ==> MatVec(f, l, MatVec(f, m, v)) == v && MatVec(f, m, MatVec(f, l, v)) == v
  }

  lemma {:induction false} LeftInverseUndoes<F(!new)>(f: Field<F>, l: Mat<F>, m: Mat<F>, n: nat, v: Vec<F>)
    requires IsField(f) && Square(l, n) && Square(m, n) && |v| == n && LeftInverse(f, l, m, n)
    ensures MatVec(f, l, MatVec(f, m, v)) == v
  {
    forall i | 0 <= i < n
      ensures Dot(f, l[i], MatVec(f, m, v)) == v[i]
    {
      CombDot(f, l[i], m, v);
      DotUnit(f, n, i, v);
    }
  }

  /** A left inverse that is injective is an inverse on both sides. */
  lemma {:induction false} LeftInverseIsInverse<F(!new)>(f: Field<F>, l: Mat<F>, m: Mat<F>, n: nat)
    requires IsField(f) && Square(l, n) && Square(m, n) && LeftInverse(f, l, m, n) && Injective(f, l, n)
    ensures Inverses(f, l, m, n)
  {
    forall v: Vec<F> | |v| == n
      ensures MatVec(f, l, MatVec(f, m, v)) == v && MatVec(f, m, MatVec(f, l, v)) == v
    {
      LeftInverseUndoes(f, l, m, n, v);
      LeftInverseUndoes(f, l, m, n, MatVec(f, l, v));
      assert Law2(MatVec(f, m, MatVec(f, l, v)), v);
    }
  }
}
