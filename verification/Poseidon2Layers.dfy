/**
 The linear layers of Poseidon2 (sections 5 and 6 of ePrint 2023/323): the cheap
 forms the code computes, and the dense matrices they stand for.
 */
module Poseidon2Layers {
  import opened Field
  import opened LinearAlgebra

  /** State sizes the code accepts: 2, 3, 4, 8, 12, 16, 20 and 24. */
  predicate SupportedSize(t: nat) {
    t == 2 || t == 3 || (t % 4 == 0 && 4 <= t <= 24)
  }

  // ---------- All-ones plus a diagonal

  function Ones<F>(f: Field<F>, n: nat): (r: Vec<F>)
    ensures |r| == n && forall i :: 0 <= i < n ==> r[i] == f.one
  {
    seq(n, _ => f.one)
  }

  function Sum<F>(f: Field<F>, x: Vec<F>): F {
    if |x| == 0 then f.zero else f.add(Sum(f, x[..|x| - 1]), x[|x| - 1])
  }

  /** Every entry times its diagonal value, plus the sum of all entries. */
  function DiagPlusOnes<F>(f: Field<F>, d: Vec<F>, x: Vec<F>): (r: Vec<F>)
    requires |d| == |x|
    ensures |r| == |x| && forall i :: 0 <= i < |r| ==> r[i] == f.add(f.mul(x[i], d[i]), Sum(f, x))
  {
    seq(|x|, i requires 0 <= i < |x| && |d| == |x| => f.add(f.mul(x[i], d[i]), Sum(f, x)))
  }

  /** Ones off the diagonal, `d[i] + 1` on it. */
  function OnesMatrix<F>(f: Field<F>, d: Vec<F>): (m: Mat<F>)
    ensures Square(m, |d|)
    ensures forall i, j :: 0 <= i < |d| && 0 <= j < |d| ==> m[i][j] == if i == j then f.add(d[i], f.one) else f.one
  {
    seq(|d|, i requires 0 <= i < |d| => seq(|d|, j requires 0 <= j < |d| => if i == j then f.add(d[i], f.one) else f.one))
  }

  lemma {:induction false} SumIsDot<F(!new)>(f: Field<F>, x: Vec<F>)
    requires IsField(f)
    ensures Sum(f, x) == Dot(f, Ones(f, |x|), x)
  {
    if |x| > 0 {
      var n := |x| - 1;
      SumIsDot(f, x[..n]);
      assert Ones(f, |x|)[..n] == Ones(f, n);
      Basic(f, x[n]);
    }
  }

  lemma {:induction false} DiagPlusOnesIsDense<F(!new)>(f: Field<F>, d: Vec<F>, x: Vec<F>)
    requires IsField(f) && |d| == |x|
    ensures DiagPlusOnes(f, d, x) == MatVec(f, OnesMatrix(f, d), x)
  {
    var n := |x|;
    forall i | 0 <= i < n
      ensures DiagPlusOnes(f, d, x)[i] == Dot(f, OnesMatrix(f, d)[i], x)
    {
      OnesRow(f, d, i);
      DotAddLeft(f, ScaleV(f, d[i], Unit(f, n, i)), Ones(f, n), x);
      DotScaleLeft(f, d[i], Unit(f, n, i), x);
      DotUnit(f, n, i, x);
      SumIsDot(f, x);
      MulComm(f, d[i], x[i]);
    }
  }

  lemma {:induction false} OnesRow<F(!new)>(f: Field<F>, d: Vec<F>, i: nat)
    requires IsField(f) && i < |d|
    ensures OnesMatrix(f, d)[i] == AddV(f, ScaleV(f, d[i], Unit(f, |d|, i)), Ones(f, |d|))
  {
    forall j | 0 <= j < |d|
      ensures OnesMatrix(f, d)[i][j] == AddV(f, ScaleV(f, d[i], Unit(f, |d|, i)), Ones(f, |d|))[j]
    {
      MulZero(f, d[i]);
      Basic(f, d[i]);
      Basic(f, f.one);
    }
  }

  // ---------- Rows of small integers

  function NatRow<F>(f: Field<F>, c: seq<nat>): (r: Vec<F>)
    ensures |r| == |c| && forall i :: 0 <= i < |c| ==> r[i] == FromNat(f, c[i])
  {
    seq(|c|, i requires 0 <= i < |c| => FromNat(f, c[i]))
  }

  function AddC(c: seq<nat>, d: seq<nat>): (r: seq<nat>)
    requires |c| == |d|
    ensures |r| == |c| && forall i :: 0 <= i < |c| ==> r[i] == c[i] + d[i]
  {
    seq(|c|, i requires 0 <= i < |c| && |c| == |d| => c[i] + d[i])
  }

  /** The integer combination of the entries of `x`. */
  function Lin<F>(f: Field<F>, c: seq<nat>, x: Vec<F>): F
    requires |c| == |x|
  {
    Dot(f, NatRow(f, c), x)
  }

  lemma {:induction false} LinAdd<F(!new)>(f: Field<F>, c: seq<nat>, d: seq<nat>, x: Vec<F>)
    requires IsField(f) && |c| == |d| == |x|
    ensures f.add(Lin(f, c, x), Lin(f, d, x)) == Lin(f, AddC(c, d), x)
  {
    forall i | 0 <= i < |c|
      ensures NatRow(f, AddC(c, d))[i] == AddV(f, NatRow(f, c), NatRow(f, d))[i]
    {
      FromNatAdd(f, c[i], d[i]);
    }
    assert NatRow(f, AddC(c, d)) == AddV(f, NatRow(f, c), NatRow(f, d));
    DotAddLeft(f, NatRow(f, c), NatRow(f, d), x);
  }

  lemma {:induction false} LinUnit<F(!new)>(f: Field<F>, c: seq<nat>, i: nat, x: Vec<F>)
    requires IsField(f) && |c| == |x| && i < |x|
    requires forall j :: 0 <= j < |c| ==> c[j] == if i == j then 1 else 0
    ensures Lin(f, c, x) == x[i]
  {
    FromNatOne(f);
    assert NatRow(f, c) == Unit(f, |x|, i);
    DotUnit(f, |x|, i, x);
  }

  // ---------- The 4 by 4 matrix

  /** The rows of the matrix M4 of section 5.1. */
  function M4Row(l: nat): (r: seq<nat>)
    requires l < 4
    ensures |r| == 4
  {
    if l == 0 then [5, 7, 1, 3]
    else if l == 1 then [4, 6, 1, 1]
    else if l == 2 then [1, 3, 5, 7]
    else [1, 1, 4, 6]
  }

  /** Eight additions and four doublings, as the code orders them. */
  datatype M4Steps<F> = M4Steps(t0: F, t1: F, t2: F, t3: F, t4: F, t5: F, t6: F, t7: F)

  function Double<F>(f: Field<F>, x: F): F {
    f.add(x, x)
  }

  function RunM4<F>(f: Field<F>, a: F, b: F, c: F, d: F): M4Steps<F> {
    var t0 := f.add(a, b);
    var t1 := f.add(c, d);
    var t2 := f.add(Double(f, b), t1);
    var t3 := f.add(Double(f, d), t0);
    var t4 := f.add(Double(f, Double(f, t1)), t3);
    var t5 := f.add(Double(f, Double(f, t0)), t2);
    var t6 := f.add(t3, t5);
    var t7 := f.add(t2, t4);
    M4Steps(t0, t1, t2, t3, t4, t5, t6, t7)
  }

  function M4<F>(f: Field<F>, x: Vec<F>): (r: Vec<F>)
    ensures |r| == |x|
  {
    if |x| != 4 then x
    else
      var s := RunM4(f, x[0], x[1], x[2], x[3]);
      [s.t6, s.t5, s.t7, s.t4]
  }

  lemma {:induction false} LinDouble<F(!new)>(f: Field<F>, c: seq<nat>, x: Vec<F>)
    requires IsField(f) && |c| == |x|
    ensures Double(f, Lin(f, c, x)) == Lin(f, AddC(c, c), x)
  {
    LinAdd(f, c, c, x);
  }

  /** The first temporaries, as integer combinations. */
  lemma {:induction false} M4FirstSteps<F(!new)>(f: Field<F>, x: Vec<F>)
    requires IsField(f) && |x| == 4
    ensures var s := RunM4(f, x[0], x[1], x[2], x[3]);
            && s.t0 == Lin(f, [1, 1, 0, 0], x) && s.t1 == Lin(f, [0, 0, 1, 1], x)
            && s.t2 == Lin(f, [0, 2, 1, 1], x) && s.t3 == Lin(f, [1, 1, 0, 2], x)
  {
    LinUnit(f, [1, 0, 0, 0], 0, x);
    LinUnit(f, [0, 1, 0, 0], 1, x);
    LinUnit(f, [0, 0, 1, 0], 2, x);
    LinUnit(f, [0, 0, 0, 1], 3, x);
    LinAdd(f, [1, 0, 0, 0], [0, 1, 0, 0], x);
    assert AddC([1, 0, 0, 0], [0, 1, 0, 0]) == [1, 1, 0, 0];
    LinAdd(f, [0, 0, 1, 0], [0, 0, 0, 1], x);
    assert AddC([0, 0, 1, 0], [0, 0, 0, 1]) == [0, 0, 1, 1];
    LinDouble(f, [0, 1, 0, 0], x);
    assert AddC([0, 1, 0, 0], [0, 1, 0, 0]) == [0, 2, 0, 0];
    LinAdd(f, [0, 2, 0, 0], [0, 0, 1, 1], x);
    assert AddC([0, 2, 0, 0], [0, 0, 1, 1]) == [0, 2, 1, 1];
    LinDouble(f, [0, 0, 0, 1], x);
    assert AddC([0, 0, 0, 1], [0, 0, 0, 1]) == [0, 0, 0, 2];
    LinAdd(f, [0, 0, 0, 2], [1, 1, 0, 0], x);
    assert AddC([0, 0, 0, 2], [1, 1, 0, 0]) == [1, 1, 0, 2];
  }

  lemma {:induction false} M4LastSteps<F(!new)>(f: Field<F>, x: Vec<F>)
    requires IsField(f) && |x| == 4
    ensures var s := RunM4(f, x[0], x[1], x[2], x[3]);
            s.t4 == Lin(f, [1, 1, 4, 6], x) && s.t5 == Lin(f, [4, 6, 1, 1], x)
  {
    M4FirstSteps(f, x);
    LinDouble(f, [0, 0, 1, 1], x);
    assert AddC([0, 0, 1, 1], [0, 0, 1, 1]) == [0, 0, 2, 2];
    LinDouble(f, [0, 0, 2, 2], x);
    assert AddC([0, 0, 2, 2], [0, 0, 2, 2]) == [0, 0, 4, 4];
    LinAdd(f, [0, 0, 4, 4], [1, 1, 0, 2], x);
    assert AddC([0, 0, 4, 4], [1, 1, 0, 2]) == [1, 1, 4, 6];
    LinDouble(f, [1, 1, 0, 0], x);
    assert AddC([1, 1, 0, 0], [1, 1, 0, 0]) == [2, 2, 0, 0];
    LinDouble(f, [2, 2, 0, 0], x);
    assert AddC([2, 2, 0, 0], [2, 2, 0, 0]) == [4, 4, 0, 0];
    LinAdd(f, [4, 4, 0, 0], [0, 2, 1, 1], x);
    assert AddC([4, 4, 0, 0], [0, 2, 1, 1]) == [4, 6, 1, 1];
  }

  /** The cheap form computes the rows of M4. */
  lemma {:induction false} M4IsDense<F(!new)>(f: Field<F>, x: Vec<F>)
    requires IsField(f) && |x| == 4
    ensures forall l: nat :: l < 4 ==> M4(f, x)[l] == Lin(f, M4Row(l), x)
  {
    M4FirstSteps(f, x);
    M4LastSteps(f, x);
    LinAdd(f, [1, 1, 0, 2], [4, 6, 1, 1], x);
    assert AddC([1, 1, 0, 2], [4, 6, 1, 1]) == [5, 7, 1, 3];
    LinAdd(f, [0, 2, 1, 1], [1, 1, 4, 6], x);
    assert AddC([0, 2, 1, 1], [1, 1, 4, 6]) == [1, 3, 5, 7];
  }

  // ---------- Blocks of four

  /** The part of `x` in block `b`. */
  function Block<F>(x: Vec<F>, b: nat): (r: Vec<F>)
    requires 4 * b + 4 <= |x|
    ensures |r| == 4
  {
    x[4 * b..4 * b + 4]
  }

  /** `g` on every block. */
  function MapBlocks<F>(g: Vec<F> -> Vec<F>, x: Vec<F>): Vec<F>
    decreases |x|
  {
    if |x| < 4 then [] else MapBlocks(g, x[..|x| - 4]) + g(x[|x| - 4..])
  }

  ghost predicate KeepsLength<F(!new)>(g: Vec<F> -> Vec<F>) {
    forall v: Vec<F> :: |v| == 4 ==> |g(v)| == 4
  }

  lemma {:induction false} MapBlocksAt<F(!new)>(g: Vec<F> -> Vec<F>, x: Vec<F>)
    requires KeepsLength(g) && |x| % 4 == 0
    ensures |MapBlocks(g, x)| == |x|
    ensures forall b: nat :: 4 * b + 4 <= |x| ==> Block(MapBlocks(g, x), b) == g(Block(x, b))
    decreases |x|
  {
    if |x| >= 4 {
      var n := |x| - 4;
      MapBlocksAt(g, x[..n]);
      assert |g(x[n..])| == 4;
      forall b: nat | 4 * b + 4 <= |x|
        ensures Block(MapBlocks(g, x), b) == g(Block(x, b))
      {
        if 4 * b == n {
          assert x[n..] == Block(x, b);
        } else {
          assert Block(x[..n], b) == Block(x, b);
          assert Block(MapBlocks(g, x[..n]), b) == g(Block(x[..n], b));
        }
      }
    }
  }

  /** M4 on every block. */
  function M4Blocks<F(!new)>(f: Field<F>, x: Vec<F>): (r: Vec<F>)
    requires |x| % 4 == 0
    ensures |r| == |x|
  {
    MapBlocksAt(v => M4(f, v), x);
    MapBlocks(v => M4(f, v), x)
  }

  lemma {:induction false} M4BlocksAt<F(!new)>(f: Field<F>, x: Vec<F>)
    requires |x| % 4 == 0
    ensures forall b: nat :: 4 * b + 4 <= |x| ==> Block(M4Blocks(f, x), b) == M4(f, Block(x, b))
  {
    MapBlocksAt(v => M4(f, v), x);
  }

  /** `y` is M4 applied to every block of `x`. */
  ghost predicate IsM4Of<F(!new)>(f: Field<F>, y: Vec<F>, x: Vec<F>) {
    |y| == |x| && forall b: nat, l: nat :: 4 * b + 4 <= |x| && l < 4 ==> y[4 * b + l] == Lin(f, M4Row(l), Block(x, b))
  }

  lemma {:induction false} M4BlocksIsM4<F(!new)>(f: Field<F>, x: Vec<F>)
    requires IsField(f) && |x| % 4 == 0
    ensures IsM4Of(f, M4Blocks(f, x), x)
  {
    var y := M4Blocks(f, x);
    M4BlocksAt(f, x);
    forall b: nat, l: nat | 4 * b + 4 <= |x| && l < 4
      ensures y[4 * b + l] == Lin(f, M4Row(l), Block(x, b))
    {
      M4IsDense(f, Block(x, b));
      assert Block(y, b)[l] == M4(f, Block(x, b))[l];
    }
  }

  /** The sum of entry `l` of the first `n` blocks. */
  function ColumnSum<F>(f: Field<F>, y: Vec<F>, l: nat, n: nat): F
    requires l < 4 && 1 <= n && 4 * n <= |y|
  {
    if n == 1 then y[l] else f.add(ColumnSum(f, y, l, n - 1), y[4 * (n - 1) + l])
  }

  /** The second step for t > 4: adds to each entry the sum of its column of blocks. */
  function AddColumnSums<F>(f: Field<F>, y: Vec<F>): (r: Vec<F>)
    requires |y| % 4 == 0 && |y| > 0
    ensures |r| == |y| && forall i :: 0 <= i < |r| ==> r[i] == f.add(y[i], ColumnSum(f, y, i % 4, |y| / 4))
  {
    seq(|y|, i requires 0 <= i < |y| && |y| % 4 == 0 => f.add(y[i], ColumnSum(f, y, i % 4, |y| / 4)))
  }

  /** `n` copies of row `r`, the one at block `sel` doubled. */
  function BlockRow(r: seq<nat>, n: nat, sel: nat): (c: seq<nat>)
    requires |r| == 4
    ensures |c| == 4 * n
  {
    if n == 0 then [] else BlockRow(r, n - 1, sel) + if n - 1 == sel then AddC(r, r) else r
  }

  lemma {:induction false} DotConcat<F(!new)>(f: Field<F>, a: Vec<F>, b: Vec<F>, x: Vec<F>, y: Vec<F>)
    requires IsField(f) && |a| == |x| && |b| == |y|
    ensures Dot(f, a + b, x + y) == f.add(Dot(f, a, x), Dot(f, b, y))
  {
    if |b| == 0 {
      assert a + b == a && x + y == x;
      Basic(f, Dot(f, a, x));
    } else {
      var n := |b| - 1;
      var c, z := a + b, x + y;
      assert c[..|c| - 1] == a + b[..n] && z[..|c| - 1] == x + y[..n];
      DotConcat(f, a, b[..n], x, y[..n]);
      AddAssoc(f, Dot(f, a, x), Dot(f, b[..n], y[..n]), f.mul(b[n], y[n]));
    }
  }

  lemma {:induction false} LinConcat<F(!new)>(f: Field<F>, c: seq<nat>, d: seq<nat>, x: Vec<F>, y: Vec<F>)
    requires IsField(f) && |c| == |x| && |d| == |y|
    ensures Lin(f, c + d, x + y) == f.add(Lin(f, c, x), Lin(f, d, y))
  {
    assert NatRow(f, c + d) == NatRow(f, c) + NatRow(f, d);
    DotConcat(f, NatRow(f, c), NatRow(f, d), x, y);
  }

  /** A block row applied to the first `n` blocks: the column sum, plus the doubled entry once more. */
  lemma {:induction false} BlockRowIsColumnSum<F(!new)>(f: Field<F>, x: Vec<F>, y: Vec<F>, l: nat, n: nat, sel: nat)
    requires IsField(f) && IsM4Of(f, y, x) && l < 4 && 1 <= n && 4 * n <= |x|
    ensures Lin(f, BlockRow(M4Row(l), n, sel), x[..4 * n])
            == if sel < n then f.add(y[4 * sel + l], ColumnSum(f, y, l, n)) else ColumnSum(f, y, l, n)
  {
    var last := n - 1;
    var here := y[4 * last + l];
    BlockRowStep(f, x, y, l, n, sel);
    if n == 1 {
      assert BlockRow(M4Row(l), 0, sel) == [] && x[..0] == [];
      Basic(f, here);
      Basic(f, f.add(here, here));
    } else {
      BlockRowIsColumnSum(f, x, y, l, last, sel);
      var before := ColumnSum(f, y, l, last);
      if sel < last {
        AddAssoc(f, y[4 * sel + l], before, here);
      } else if sel == last {
        AddAssoc(f, before, here, here);
        AddComm(f, f.add(before, here), here);
      }
    }
  }

  /** The last block adds its entry once, or twice if it is the selected one. */
  lemma {:induction false} BlockRowStep<F(!new)>(f: Field<F>, x: Vec<F>, y: Vec<F>, l: nat, n: nat, sel: nat)
    requires IsField(f) && IsM4Of(f, y, x) && l < 4 && 1 <= n && 4 * n <= |x|
    ensures var here := y[4 * (n - 1) + l];
            Lin(f, BlockRow(M4Row(l), n, sel), x[..4 * n])
            == f.add(Lin(f, BlockRow(M4Row(l), n - 1, sel), x[..4 * (n - 1)]), if n - 1 == sel then f.add(here, here) else here)
  {
    var r, last := M4Row(l), n - 1;
    assert y[4 * last + l] == Lin(f, r, Block(x, last));
    assert x[..4 * n] == x[..4 * last] + Block(x, last);
    var own := if last == sel then AddC(r, r) else r;
    LinConcat(f, BlockRow(r, last, sel), own, x[..4 * last], Block(x, last));
    LinDouble(f, r, Block(x, last));
  }

  // ---------- The two layers

  /** Row `i` of the external matrix: circ(2, 1, ..., 1), M4, or blocks of M4 doubled on the diagonal. */
  function ExternalRow(t: nat, i: nat): (r: seq<nat>)
    requires SupportedSize(t) && i < t
    ensures |r| == t
  {
    if t <= 3 then seq(t, j => if i == j then 2 else 1)
    else if t == 4 then M4Row(i)
    else BlockRow(M4Row(i % 4), t / 4, i / 4)
  }

  function ExternalMatrix<F>(f: Field<F>, t: nat): (m: Mat<F>)
    requires SupportedSize(t)
    ensures Square(m, t) && forall i :: 0 <= i < t ==> m[i] == NatRow(f, ExternalRow(t, i))
  {
    seq(t, i requires 0 <= i < t && SupportedSize(t) => NatRow(f, ExternalRow(t, i)))
  }

  /** `matmul_external` as a function. */
  function ExternalLayer<F(!new)>(f: Field<F>, x: Vec<F>): (r: Vec<F>)
    requires SupportedSize(|x|)
    ensures |r| == |x|
  {
    if |x| <= 3 then DiagPlusOnes(f, Ones(f, |x|), x)
    else if |x| == 4 then M4Blocks(f, x)
    else AddColumnSums(f, M4Blocks(f, x))
  }

  lemma {:induction false} ExternalSmall<F(!new)>(f: Field<F>, t: nat)
    requires IsField(f) && (t == 2 || t == 3)
    ensures ExternalMatrix(f, t) == OnesMatrix(f, Ones(f, t))
  {
    FromNatOne(f);
    FromNatAdd(f, 1, 1);
    forall i | 0 <= i < t
      ensures ExternalMatrix(f, t)[i] == OnesMatrix(f, Ones(f, t))[i]
    {
      assert forall j :: 0 <= j < t ==> NatRow(f, ExternalRow(t, i))[j] == OnesMatrix(f, Ones(f, t))[i][j];
    }
  }

  /** The external layer is its dense matrix, for every supported size. */
  lemma {:induction false} ExternalIsDense<F(!new)>(f: Field<F>, x: Vec<F>)
    requires IsField(f) && SupportedSize(|x|)
    ensures ExternalLayer(f, x) == MatVec(f, ExternalMatrix(f, |x|), x)
  {
    var t := |x|;
    if t <= 3 {
      ExternalSmall(f, t);
      DiagPlusOnesIsDense(f, Ones(f, t), x);
    } else {
      var y := M4Blocks(f, x);
      M4BlocksIsM4(f, x);
      forall i | 0 <= i < t
        ensures ExternalLayer(f, x)[i] == Lin(f, ExternalRow(t, i), x)
      {
        ExternalEntry(f, x, y, i);
      }
    }
  }

  lemma {:induction false} ExternalEntry<F(!new)>(f: Field<F>, x: Vec<F>, y: Vec<F>, i: nat)
    requires IsField(f) && SupportedSize(|x|) && |x| >= 4 && i < |x| && IsM4Of(f, y, x)
    ensures Lin(f, ExternalRow(|x|, i), x) == if |x| == 4 then y[i] else AddColumnSums(f, y)[i]
  {
    var t := |x|;
    if t == 4 {
      assert Block(x, 0) == x;
      assert y[4 * 0 + i] == Lin(f, M4Row(i), Block(x, 0));
    } else {
      assert x[..4 * (t / 4)] == x;
      BlockRowIsColumnSum(f, x, y, i % 4, t / 4, i / 4);
      assert 4 * (i / 4) + i % 4 == i;
    }
  }

  /** The diagonal the code uses: the given one, except that sizes 2 and 3 have it built in. */
  function EffectiveDiagonal<F>(f: Field<F>, t: nat, diag: Vec<F>): (d: Vec<F>)
    requires t >= 4 ==> |diag| == t
    requires SupportedSize(t)
    ensures |d| == t
  {
    if t == 2 then [f.one, f.add(f.one, f.one)]
    else if t == 3 then [f.one, f.one, f.add(f.one, f.one)]
    else diag
  }

  /** `matmul_internal` as a function. */
  function InternalLayer<F>(f: Field<F>, diag: Vec<F>, x: Vec<F>): (r: Vec<F>)
    requires SupportedSize(|x|) && (|x| >= 4 ==> |diag| == |x|)
    ensures |r| == |x|
  {
    DiagPlusOnes(f, EffectiveDiagonal(f, |x|, diag), x)
  }

  /** The matrix of partial rounds: written out for sizes 2 and 3, ones plus the given diagonal for the others. */
  function InternalMatrix<F>(f: Field<F>, t: nat, diag: Vec<F>): (m: Mat<F>)
    requires SupportedSize(t) && |diag| == t
    ensures Square(m, t)
  {
    if t == 2 then [NatRow(f, [2, 1]),
                    NatRow(f, [1, 3])]
    else if t == 3 then [NatRow(f, [2, 1, 1]),
                         NatRow(f, [1, 2, 1]),
                         NatRow(f, [1, 1, 3])]
    else OnesMatrix(f, diag)
  }

  lemma SmallNumbers<F(!new)>(f: Field<F>)
    requires IsField(f)
    ensures var two := f.add(f.one, f.one);
            FromNat(f, 1) == f.one && FromNat(f, 2) == two && FromNat(f, 3) == f.add(two, f.one)
  {
    FromNatOne(f);
    assert FromNat(f, 2) == f.add(FromNat(f, 1), f.one);
    assert FromNat(f, 3) == f.add(FromNat(f, 2), f.one);
  }

  lemma {:induction false} InternalMatrixIsEffective<F(!new)>(f: Field<F>, t: nat, diag: Vec<F>)
    requires IsField(f) && SupportedSize(t) && |diag| == t
    ensures InternalMatrix(f, t, diag) == OnesMatrix(f, EffectiveDiagonal(f, t, diag))
  {
    hide IsField, FromNat;
    SmallNumbers(f);
    var m, d := InternalMatrix(f, t, diag), OnesMatrix(f, EffectiveDiagonal(f, t, diag));
    forall i | 0 <= i < t
      ensures m[i] == d[i]
    {
      if t == 2 || t == 3 {
        assert forall j :: 0 <= j < t ==> m[i][j] == d[i][j];
      }
    }
  }

  /** On every state of every size the internal layer is multiplication by that matrix. */
  lemma {:induction false} InternalIsMatrix<F(!new)>(f: Field<F>, diag: Vec<F>, x: Vec<F>)
    requires IsField(f) && SupportedSize(|x|) && |diag| == |x|
    ensures InternalLayer(f, diag, x) == MatVec(f, InternalMatrix(f, |x|, diag), x)
  {
    InternalMatrixIsEffective(f, |x|, diag);
    DiagPlusOnesIsDense(f, EffectiveDiagonal(f, |x|, diag), x);
  }

  /** The internal layer agrees with the dense matrix of `diag` on every state. */
  ghost predicate InternalMatches<F(!new)>(f: Field<F>, t: nat, diag: Vec<F>)
    requires SupportedSize(t) && |diag| == t
  {
    forall x: Vec<F> {:trigger InternalLayer(f, diag, x)} :: |x| == t ==>
      InternalLayer(f, diag, x) == MatVec(f, OnesMatrix(f, diag), x)
  }

  /**
   The internal layer is ones plus the given diagonal if and only if, for sizes
   2 and 3, that diagonal is [1, 2] and [1, 1, 2].
   */
  lemma {:induction false} InternalIsDense<F(!new)>(f: Field<F>, t: nat, diag: Vec<F>)
    requires IsField(f) && SupportedSize(t) && |diag| == t
    ensures InternalMatches(f, t, diag) <==> (t == 2 ==> diag == NatRow(f, [1, 2])) && (t == 3 ==> diag == NatRow(f, [1, 1, 2]))
  {
    var d := EffectiveDiagonal(f, t, diag);
    SmallNumbers(f);
    assert t == 2 ==> d == NatRow(f, [1, 2]);
    assert t == 3 ==> d == NatRow(f, [1, 1, 2]);
    if diag == d {
      forall x: Vec<F> | |x| == t
        ensures InternalLayer(f, diag, x) == MatVec(f, OnesMatrix(f, diag), x)
      {
        DiagPlusOnesIsDense(f, diag, x);
      }
    }
    if InternalMatches(f, t, diag) {
      forall i | 0 <= i < t
        ensures diag[i] == d[i]
      {
        MatchShowsDiagonal(f, t, diag, i);
      }
    }
  }

  /** With size 2 and a diagonal of zeros the layer is not the matrix of that diagonal. */
  lemma {:induction false} ZeroDiagonalIsIgnored<F(!new)>(f: Field<F>)
    requires IsField(f)
    ensures !InternalMatches(f, 2, Zeros(f, 2))
  {
    hide InternalMatches, InternalLayer;
    InternalIsDense(f, 2, Zeros(f, 2));
    FromNatOne(f);
    assert NatRow(f, [1, 2])[0] == f.one;
  }

  lemma {:induction false} MatchShowsDiagonal<F(!new)>(f: Field<F>, t: nat, diag: Vec<F>, i: nat)
    requires IsField(f) && SupportedSize(t) && |diag| == t && i < t && InternalMatches(f, t, diag)
    ensures diag[i] == EffectiveDiagonal(f, t, diag)[i]
  {
    var e, d := Unit(f, t, i), EffectiveDiagonal(f, t, diag);
    assert InternalLayer(f, diag, e) == MatVec(f, OnesMatrix(f, diag), e);
    DiagPlusOnesIsDense(f, diag, e);
    DiagonalShowsOnUnit(f, d, i);
    DiagonalShowsOnUnit(f, diag, i);
    AddCancel(f, diag[i], d[i], Sum(f, e));
  }

  lemma {:induction false} DiagonalShowsOnUnit<F(!new)>(f: Field<F>, d: Vec<F>, i: nat)
    requires IsField(f) && i < |d|
    ensures DiagPlusOnes(f, d, Unit(f, |d|, i))[i] == f.add(d[i], Sum(f, Unit(f, |d|, i)))
  {
    Basic(f, d[i]);
  }
}
