/**
 The permutation is a bijection: every layer has an inverse, for every supported
 size, given a few nonzero small integers and an inverse of the power map.
 */
module Poseidon2Inverse {
  import opened Field
  import opened LinearAlgebra
  import opened Poseidon2Layers
  import opened Poseidon2

  // ---------- All-ones plus a diagonal

  function InvV<F>(f: Field<F>, d: Vec<F>): (r: Vec<F>)
    ensures |r| == |d| && forall i :: 0 <= i < |r| ==> r[i] == f.inv(d[i])
  {
    seq(|d|, i requires 0 <= i < |d| => f.inv(d[i]))
  }

  /** No zero on the diagonal, and 1 + the sum of its inverses is not zero. */
  ghost predicate DiagonalInvertible<F(!new)>(f: Field<F>, d: Vec<F>) {
    && (forall i :: 0 <= i < |d| ==> d[i] != f.zero)
    && f.add(f.one, Sum(f, InvV(f, d))) != f.zero
  }

  /** The sum of the entries that `y` came from. */
  function SumBefore<F>(f: Field<F>, d: Vec<F>, y: Vec<F>): F
    requires |d| == |y|
  {
    f.mul(Dot(f, y, InvV(f, d)), f.inv(f.add(f.one, Sum(f, InvV(f, d)))))
  }

  function UndoDiagPlusOnes<F>(f: Field<F>, d: Vec<F>, y: Vec<F>): (x: Vec<F>)
    requires |d| == |y|
    ensures |x| == |y| && forall i :: 0 <= i < |x| ==> x[i] == f.mul(Sub(f, y[i], SumBefore(f, d, y)), f.inv(d[i]))
  {
    seq(|y|, i requires 0 <= i < |y| && |d| == |y| => f.mul(Sub(f, y[i], SumBefore(f, d, y)), f.inv(d[i])))
  }

  /** The sum of (x d + s) / d is the sum of x plus s times the sum of 1 / d. */
  lemma {:induction false} WeightedSum<F(!new)>(f: Field<F>, d: Vec<F>, x: Vec<F>, y: Vec<F>, s: F)
    requires IsField(f) && |d| == |x| == |y|
    requires forall i :: 0 <= i < |d| ==> d[i] != f.zero && y[i] == f.add(f.mul(x[i], d[i]), s)
    ensures Dot(f, y, InvV(f, d)) == f.add(Sum(f, x), f.mul(s, Sum(f, InvV(f, d))))
  {
    if |d| == 0 {
      MulZero(f, s);
      Basic(f, f.zero);
    } else {
      var n := |d| - 1;
      var e, before := f.inv(d[n]), Sum(f, InvV(f, d[..n]));
      WeightedSum(f, d[..n], x[..n], y[..n], s);
      assert InvV(f, d)[..n] == InvV(f, d[..n]);
      Distrib(f, e, f.mul(x[n], d[n]), s);
      MulUndo(f, d[n], x[n]);
      AddSwap(f, Sum(f, x[..n]), f.mul(s, before), x[n], f.mul(s, e));
      Distrib(f, s, before, e);
    }
  }

  /** s + s w = s (1 + w) */
  lemma {:induction false} FactorOut<F(!new)>(f: Field<F>, s: F, w: F)
    requires IsField(f)
    ensures f.add(s, f.mul(s, w)) == f.mul(s, f.add(f.one, w))
  {
    Distrib(f, s, f.one, w);
    Basic(f, s);
  }

  lemma {:induction false} DiagonalUndoneLeft<F(!new)>(f: Field<F>, d: Vec<F>, x: Vec<F>)
    requires IsField(f) && |d| == |x| && DiagonalInvertible(f, d)
    ensures UndoDiagPlusOnes(f, d, DiagPlusOnes(f, d, x)) == x
  {
    var y, s, w := DiagPlusOnes(f, d, x), Sum(f, x), Sum(f, InvV(f, d));
    WeightedSum(f, d, x, y, s);
    FactorOut(f, s, w);
    MulUndo(f, f.add(f.one, w), s);
    assert SumBefore(f, d, y) == s;
    forall i | 0 <= i < |x|
      ensures UndoDiagPlusOnes(f, d, y)[i] == x[i]
    {
      SubAdd(f, f.mul(x[i], d[i]), s);
      MulUndo(f, d[i], x[i]);
    }
  }

  lemma {:induction false} DiagonalUndoneRight<F(!new)>(f: Field<F>, d: Vec<F>, y: Vec<F>)
    requires IsField(f) && |d| == |y| && DiagonalInvertible(f, d)
    ensures DiagPlusOnes(f, d, UndoDiagPlusOnes(f, d, y)) == y
  {
    var x, s, w := UndoDiagPlusOnes(f, d, y), SumBefore(f, d, y), Sum(f, InvV(f, d));
    forall i | 0 <= i < |y|
      ensures f.add(f.mul(x[i], d[i]), s) == y[i]
    {
      MulUndo(f, d[i], Sub(f, y[i], s));
      SubAdd(f, y[i], s);
    }
    WeightedSum(f, d, x, y, s);
    FactorOut(f, s, w);
    MulUndo(f, f.add(f.one, w), Dot(f, y, InvV(f, d)));
    AddCancel(f, Sum(f, x), s, f.mul(s, w));
  }

  // ---------- M4

  function Half<F>(f: Field<F>, x: F): F {
    f.mul(x, f.inv(f.add(f.one, f.one)))
  }

  lemma {:induction false} HalfUndoesDouble<F(!new)>(f: Field<F>, x: F)
    requires IsField(f) && f.add(f.one, f.one) != f.zero
    ensures Half(f, Double(f, x)) == x && Double(f, Half(f, x)) == x
  {
    DoubleIsTimesTwo(f, x);
    DoubleIsTimesTwo(f, Half(f, x));
    MulUndo(f, f.add(f.one, f.one), x);
  }

  /** The eight steps of M4 backwards. */
  function UndoM4<F>(f: Field<F>, z: Vec<F>): (r: Vec<F>)
    ensures |r| == |z|
  {
    if |z| != 4 then z
    else
      var t3 := Sub(f, z[0], z[1]);
      var t2 := Sub(f, z[2], z[3]);
      var t1 := Half(f, Half(f, Sub(f, z[3], t3)));
      var t0 := Half(f, Half(f, Sub(f, z[1], t2)));
      var b := Half(f, Sub(f, t2, t1));
      var d := Half(f, Sub(f, t3, t0));
      [Sub(f, t0, b), b, Sub(f, t1, d), d]
  }

  lemma {:induction false} M4UndoneLeft<F(!new)>(f: Field<F>, x: Vec<F>)
    requires IsField(f) && f.add(f.one, f.one) != f.zero && |x| == 4
    ensures UndoM4(f, M4(f, x)) == x
  {
    var s := RunM4(f, x[0], x[1], x[2], x[3]);
    SubAdd(f, s.t3, s.t5);
    SubAdd(f, s.t2, s.t4);
    QuarterStep(f, s.t1, s.t3);
    QuarterStep(f, s.t0, s.t2);
    SubAdd(f, Double(f, x[1]), s.t1);
    HalfUndoesDouble(f, x[1]);
    SubAdd(f, Double(f, x[3]), s.t0);
    HalfUndoesDouble(f, x[3]);
    SubAdd(f, x[0], x[1]);
    SubAdd(f, x[2], x[3]);
  }

  /** (4 x + y - y) / 4 = x, and 4 ((x - y) / 4) + y = x. */
  lemma {:induction false} QuarterStep<F(!new)>(f: Field<F>, x: F, y: F)
    requires IsField(f) && f.add(f.one, f.one) != f.zero
    ensures Half(f, Half(f, Sub(f, f.add(Double(f, Double(f, x)), y), y))) == x
    ensures f.add(Double(f, Double(f, Half(f, Half(f, Sub(f, x, y))))), y) == x
  {
    SubAdd(f, Double(f, Double(f, x)), y);
    HalfUndoesDouble(f, Double(f, x));
    HalfUndoesDouble(f, x);
    HalfUndoesDouble(f, Half(f, Sub(f, x, y)));
    HalfUndoesDouble(f, Sub(f, x, y));
    SubAdd(f, x, y);
  }

  lemma {:induction false} M4UndoneRight<F(!new)>(f: Field<F>, z: Vec<F>)
    requires IsField(f) && f.add(f.one, f.one) != f.zero && |z| == 4
    ensures M4(f, UndoM4(f, z)) == z
  {
    var t3, t2 := Sub(f, z[0], z[1]), Sub(f, z[2], z[3]);
    var t1, t0 := Half(f, Half(f, Sub(f, z[3], t3))), Half(f, Half(f, Sub(f, z[1], t2)));
    var b, d := Half(f, Sub(f, t2, t1)), Half(f, Sub(f, t3, t0));
    SubAdd(f, t0, b);
    SubAdd(f, t1, d);
    HalfUndoesDouble(f, Sub(f, t2, t1));
    HalfUndoesDouble(f, Sub(f, t3, t0));
    SubAdd(f, t2, t1);
    SubAdd(f, t3, t0);
    QuarterStep(f, z[3], t3);
    QuarterStep(f, z[1], t2);
    SubAdd(f, z[0], z[1]);
    SubAdd(f, z[2], z[3]);
  }

  /** Undoing a map block by block undoes it everywhere. */
  lemma {:induction false} BlocksUndone<F(!new)>(g: Vec<F> -> Vec<F>, undo: Vec<F> -> Vec<F>, x: Vec<F>)
    requires |x| % 4 == 0 && KeepsLength(g)
    requires forall v: Vec<F> {:trigger g(v)} :: |v| == 4 ==> undo(g(v)) == v
    ensures MapBlocks(undo, MapBlocks(g, x)) == x
    decreases |x|
  {
    if |x| >= 4 {
      var n := |x| - 4;
      var y, last := MapBlocks(g, x[..n]), g(x[n..]);
      BlocksUndone(g, undo, x[..n]);
      MapBlocksAt(g, x[..n]);
      assert |last| == 4 && undo(last) == x[n..];
      var all := y + last;
      assert all[..|all| - 4] == y && all[|all| - 4..] == last;
      assert x == x[..n] + x[n..];
    }
  }

  // ---------- Column sums

  /** Shifting an entry of every block by `c` shifts the sum of the first `n` by n c. */
  lemma {:induction false} ShiftedColumnSum<F(!new)>(f: Field<F>, y: Vec<F>, z: Vec<F>, l: nat, n: nat, c: F)
    requires IsField(f) && l < 4 && 1 <= n && 4 * n <= |y| == |z|
    requires forall b: nat :: b < n ==> z[4 * b + l] == f.add(y[4 * b + l], c)
    ensures ColumnSum(f, z, l, n) == f.add(ColumnSum(f, y, l, n), f.mul(FromNat(f, n), c))
  {
    FromNatOne(f);
    Basic(f, c);
    assert z[4 * (n - 1) + l] == f.add(y[4 * (n - 1) + l], c);
    if n > 1 {
      var m := n - 1;
      ShiftedColumnSum(f, y, z, l, m, c);
      AddSwap(f, ColumnSum(f, y, l, m), f.mul(FromNat(f, m), c), y[4 * m + l], c);
      Distrib(f, c, FromNat(f, m), f.one);
    }
  }

  /** The column sum that was added, from the sum after adding. */
  function ColumnBefore<F>(f: Field<F>, z: Vec<F>, l: nat): F
    requires |z| % 4 == 0 && |z| > 0 && l < 4
  {
    f.mul(ColumnSum(f, z, l, |z| / 4), f.inv(FromNat(f, |z| / 4 + 1)))
  }

  function UndoColumnSums<F>(f: Field<F>, z: Vec<F>): (y: Vec<F>)
    requires |z| % 4 == 0 && |z| > 0
    ensures |y| == |z| && forall i :: 0 <= i < |y| ==> y[i] == Sub(f, z[i], ColumnBefore(f, z, i % 4))
  {
    seq(|z|, i requires 0 <= i < |z| && |z| % 4 == 0 => Sub(f, z[i], ColumnBefore(f, z, i % 4)))
  }

  lemma {:induction false} BlockIndex(b: nat, l: nat)
    requires l < 4
    ensures (4 * b + l) % 4 == l
  {
  }

  /** x + n x = (n + 1) x */
  lemma {:induction false} OneMore<F(!new)>(f: Field<F>, n: nat, x: F)
    requires IsField(f)
    ensures f.add(x, f.mul(FromNat(f, n), x)) == f.mul(x, FromNat(f, n + 1))
  {
    Distrib(f, x, FromNat(f, n), f.one);
    Basic(f, x);
    MulComm(f, FromNat(f, n), x);
    AddComm(f, x, f.mul(x, FromNat(f, n)));
  }

  lemma {:induction false} ColumnAfterAdding<F(!new)>(f: Field<F>, y: Vec<F>, l: nat)
    requires IsField(f) && |y| % 4 == 0 && |y| > 0 && l < 4 && FromNat(f, |y| / 4 + 1) != f.zero
    ensures ColumnBefore(f, AddColumnSums(f, y), l) == ColumnSum(f, y, l, |y| / 4)
  {
    var n, z := |y| / 4, AddColumnSums(f, y);
    var c := ColumnSum(f, y, l, n);
    forall b: nat | b < n
      ensures z[4 * b + l] == f.add(y[4 * b + l], c)
    {
      BlockIndex(b, l);
    }
    ShiftedColumnSum(f, y, z, l, n, c);
    OneMore(f, n, c);
    MulUndo(f, FromNat(f, n + 1), c);
  }

  lemma {:induction false} ColumnAfterUndoing<F(!new)>(f: Field<F>, z: Vec<F>, l: nat)
    requires IsField(f) && |z| % 4 == 0 && |z| > 0 && l < 4 && FromNat(f, |z| / 4 + 1) != f.zero
    ensures ColumnSum(f, UndoColumnSums(f, z), l, |z| / 4) == ColumnBefore(f, z, l)
  {
    var n, y := |z| / 4, UndoColumnSums(f, z);
    var c := ColumnBefore(f, z, l);
    forall b: nat | b < n
      ensures z[4 * b + l] == f.add(y[4 * b + l], c)
    {
      BlockIndex(b, l);
      SubAdd(f, z[4 * b + l], c);
    }
    ShiftedColumnSum(f, y, z, l, n, c);
    OneMore(f, n, c);
    MulUndo(f, FromNat(f, n + 1), ColumnSum(f, z, l, n));
    AddCancel(f, ColumnSum(f, y, l, n), c, f.mul(FromNat(f, n), c));
  }

  lemma {:induction false} ColumnsUndone<F(!new)>(f: Field<F>, x: Vec<F>)
    requires IsField(f) && |x| % 4 == 0 && |x| > 0 && FromNat(f, |x| / 4 + 1) != f.zero
    ensures UndoColumnSums(f, AddColumnSums(f, x)) == x && AddColumnSums(f, UndoColumnSums(f, x)) == x
  {
    forall i | 0 <= i < |x|
      ensures UndoColumnSums(f, AddColumnSums(f, x))[i] == x[i] && AddColumnSums(f, UndoColumnSums(f, x))[i] == x[i]
    {
      ColumnAfterAdding(f, x, i % 4);
      ColumnAfterUndoing(f, x, i % 4);
      SubAdd(f, x[i], ColumnSum(f, x, i % 4, |x| / 4));
      SubAdd(f, x[i], ColumnBefore(f, x, i % 4));
    }
  }

  // ---------- The layers

  /** The small integers the external layer divides by are not zero. */
  ghost predicate ExternalInvertible<F(!new)>(f: Field<F>, t: nat) {
    if t <= 3 then DiagonalInvertible(f, Ones(f, t))
    else f.add(f.one, f.one) != f.zero && (t > 4 ==> FromNat(f, t / 4 + 1) != f.zero)
  }

  function UndoExternal<F(!new)>(f: Field<F>, y: Vec<F>): (x: Vec<F>)
    requires SupportedSize(|y|)
  {
    if |y| <= 3 then UndoDiagPlusOnes(f, Ones(f, |y|), y)
    else MapBlocks(v => UndoM4(f, v), if |y| == 4 then y else UndoColumnSums(f, y))
  }

  lemma {:induction false} M4BlocksUndone<F(!new)>(f: Field<F>, x: Vec<F>)
    requires IsField(f) && f.add(f.one, f.one) != f.zero && |x| % 4 == 0
    ensures MapBlocks(v => UndoM4(f, v), M4Blocks(f, x)) == x
    ensures |MapBlocks(v => UndoM4(f, v), x)| == |x| && M4Blocks(f, MapBlocks(v => UndoM4(f, v), x)) == x
  {
    var g, undo := (v: Vec<F>) => M4(f, v), (v: Vec<F>) => UndoM4(f, v);
    forall v: Vec<F> | |v| == 4
      ensures undo(g(v)) == v && g(undo(v)) == v
    {
      M4UndoneLeft(f, v);
      M4UndoneRight(f, v);
    }
    MapBlocksAt(undo, x);
    BlocksUndone(g, undo, x);
    BlocksUndone(undo, g, x);
  }

  /** The external layer has an inverse at `x`. */
  ghost predicate ExternalUndoneAt<F(!new)>(f: Field<F>, x: Vec<F>)
    requires SupportedSize(|x|)
  {
    && UndoExternal(f, ExternalLayer(f, x)) == x
    && |UndoExternal(f, x)| == |x| && ExternalLayer(f, UndoExternal(f, x)) == x
  }

  lemma {:induction false} SmallExternalUndone<F(!new)>(f: Field<F>, x: Vec<F>)
    requires IsField(f) && (|x| == 2 || |x| == 3) && ExternalInvertible(f, |x|)
    ensures ExternalUndoneAt(f, x)
  {
    DiagonalUndoneLeft(f, Ones(f, |x|), x);
    DiagonalUndoneRight(f, Ones(f, |x|), x);
  }

  lemma {:induction false} FourExternalUndone<F(!new)>(f: Field<F>, x: Vec<F>)
    requires IsField(f) && |x| == 4 && ExternalInvertible(f, |x|)
    ensures ExternalUndoneAt(f, x)
  {
    M4BlocksUndone(f, x);
  }

  lemma {:induction false} BigExternalUndone<F(!new)>(f: Field<F>, x: Vec<F>)
    requires IsField(f) && SupportedSize(|x|) && |x| > 4 && ExternalInvertible(f, |x|)
    ensures ExternalUndoneAt(f, x)
  {
    M4BlocksUndone(f, x);
    M4BlocksUndone(f, UndoColumnSums(f, x));
    ColumnsUndone(f, M4Blocks(f, x));
    ColumnsUndone(f, x);
  }

  /** The external layer has an inverse, for every supported size. */
  lemma {:induction false} ExternalUndone<F(!new)>(f: Field<F>, x: Vec<F>)
    requires IsField(f) && SupportedSize(|x|) && ExternalInvertible(f, |x|)
    ensures ExternalUndoneAt(f, x)
  {
    if |x| <= 3 {
      SmallExternalUndone(f, x);
    } else if |x| == 4 {
      FourExternalUndone(f, x);
    } else {
      BigExternalUndone(f, x);
    }
  }

  // ---------- Rounds and the permutation

  /** Each part of `us` undoes the same part of `ls`, and is undone by it. */
  ghost predicate Undoes<F(!new)>(us: Layers<F>, ls: Layers<F>, t: nat) {
    && (forall v: Vec<F> {:trigger Law1(v)} :: |v| == t ==>
          && us.external(ls.external(v)) == v && ls.external(us.external(v)) == v
          && us.internal(ls.internal(v)) == v && ls.internal(us.internal(v)) == v)
    && (forall x: F {:trigger Law1(x)} :: us.sbox(ls.sbox(x)) == x && ls.sbox(us.sbox(x)) == x)
  }

  /** A round backwards. */
  function UndoRound<F>(f: Field<F>, us: Layers<F>, y: Vec<F>, c: Vec<F>, partial: bool): Vec<F>
    requires |y| > 0 && if partial then |c| > 0 else |c| == |y|
  {
    if partial then
      var z := us.internal(y);
      if |z| == |y| then z[0 := Sub(f, us.sbox(z[0]), c[0])] else y
    else
      var z := us.external(y);
      if |z| == |y| then SubV(f, MapV(us.sbox, z), c) else y
  }

  function SubV<F>(f: Field<F>, x: Vec<F>, c: Vec<F>): (r: Vec<F>)
    requires |x| == |c|
    ensures |r| == |x| && forall i :: 0 <= i < |r| ==> r[i] == Sub(f, x[i], c[i])
  {
    seq(|x|, i requires 0 <= i < |x| && |x| == |c| => Sub(f, x[i], c[i]))
  }

  lemma {:induction false} FullRoundUndone<F(!new)>(f: Field<F>, ls: Layers<F>, us: Layers<F>, x: Vec<F>, c: Vec<F>)
    requires IsField(f) && |x| == |c| > 0 && KeepSize(ls, |x|) && KeepSize(us, |x|) && Undoes(us, ls, |x|)
    ensures UndoRound(f, us, Round(f, ls, x, c, false), c, false) == x
    ensures |UndoRound(f, us, x, c, false)| == |x| && Round(f, ls, UndoRound(f, us, x, c, false), c, false) == x
  {
    var y := MapV(ls.sbox, AddV(f, x, c));
    assert Law1(y) && Law1(x);
    assert SubV(f, MapV(us.sbox, y), c) == x by {
      forall i | 0 <= i < |x| ensures Sub(f, us.sbox(y[i]), c[i]) == x[i] {
        assert Law1(f.add(x[i], c[i]));
        SubAdd(f, x[i], c[i]);
      }
    }
    var z := us.external(x);
    var w := SubV(f, MapV(us.sbox, z), c);
    assert MapV(ls.sbox, AddV(f, w, c)) == z by {
      forall i | 0 <= i < |x| ensures ls.sbox(f.add(w[i], c[i])) == z[i] {
        assert Law1(z[i]);
        SubAdd(f, us.sbox(z[i]), c[i]);
      }
    }
  }

  lemma {:induction false} PartialRoundUndone<F(!new)>(f: Field<F>, ls: Layers<F>, us: Layers<F>, x: Vec<F>, c: Vec<F>)
    requires IsField(f) && |x| > 0 && |c| > 0 && KeepSize(ls, |x|) && KeepSize(us, |x|) && Undoes(us, ls, |x|)
    ensures UndoRound(f, us, Round(f, ls, x, c, true), c, true) == x
    ensures |UndoRound(f, us, x, c, true)| == |x| && Round(f, ls, UndoRound(f, us, x, c, true), c, true) == x
  {
    var y := x[0 := ls.sbox(f.add(x[0], c[0]))];
    assert Law1(y) && Law1(x) && Law1(f.add(x[0], c[0]));
    SubAdd(f, x[0], c[0]);
    assert y[0 := x[0]] == x;
    var z := us.internal(x);
    assert Law1(z[0]);
    SubAdd(f, us.sbox(z[0]), c[0]);
    assert z[0 := Sub(f, us.sbox(z[0]), c[0])][0 := z[0]] == z;
  }

  lemma {:induction false} RoundUndone<F(!new)>(f: Field<F>, ls: Layers<F>, us: Layers<F>, x: Vec<F>, c: Vec<F>, partial: bool)
    requires IsField(f) && |x| > 0 && (if partial then |c| > 0 else |c| == |x|) && KeepSize(ls, |x|) && KeepSize(us, |x|) && Undoes(us, ls, |x|)
    ensures UndoRound(f, us, Round(f, ls, x, c, partial), c, partial) == x
    ensures |UndoRound(f, us, x, c, partial)| == |x| && Round(f, ls, UndoRound(f, us, x, c, partial), c, partial) == x
  {
    if partial {
      PartialRoundUndone(f, ls, us, x, c);
    } else {
      FullRoundUndone(f, ls, us, x, c);
    }
  }

  /** `r` rounds and the first layer, backwards. */
  ghost function UndoPermutation<F(!new)>(f: Field<F>, us: Layers<F>, p: Params<F>, y: Vec<F>, r: nat): Vec<F>
    requires ShapeOk(p) && p.t > 0 && r <= p.rounds
    decreases r
  {
    if |y| != p.t then y
    else if r == 0 then us.external(y)
    else UndoPermutation(f, us, p, UndoRound(f, us, y, Row(p, r - 1), IsPartial(p, r - 1)), r - 1)
  }

  /** If every layer has an inverse, running the schedule backwards undoes it. */
  lemma {:induction false} ScheduleIsUndone<F(!new)>(f: Field<F>, ls: Layers<F>, us: Layers<F>, p: Params<F>, x: Vec<F>, r: nat)
    requires IsField(f) && ShapeOk(p) && p.t > 0 && KeepSize(ls, p.t) && KeepSize(us, p.t) && Undoes(us, ls, p.t)
    requires |x| == p.t && r <= p.rounds
    ensures UndoPermutation(f, us, p, StateAfter(f, ls, p, x, r), r) == x
    decreases r
  {
    if r == 0 {
      assert Law1(x);
    } else {
      ScheduleIsUndone(f, ls, us, p, x, r - 1);
      RoundUndone(f, ls, us, StateAfter(f, ls, p, x, r - 1), Row(p, r - 1), IsPartial(p, r - 1));
    }
  }

  /** And the schedule undoes running it backwards. */
  lemma {:induction false} ScheduleUndoes<F(!new)>(f: Field<F>, ls: Layers<F>, us: Layers<F>, p: Params<F>, y: Vec<F>, r: nat)
    requires IsField(f) && ShapeOk(p) && p.t > 0 && KeepSize(ls, p.t) && KeepSize(us, p.t) && Undoes(us, ls, p.t)
    requires |y| == p.t && r <= p.rounds
    ensures |UndoPermutation(f, us, p, y, r)| == p.t
    ensures StateAfter(f, ls, p, UndoPermutation(f, us, p, y, r), r) == y
    decreases r
  {
    hide Round, UndoRound, ShapeOk;
    if r == 0 {
      assert Law1(y);
    } else {
      var c, partial := Row(p, r - 1), IsPartial(p, r - 1);
      RoundUndone(f, ls, us, y, c, partial);
      ScheduleUndoes(f, ls, us, p, UndoRound(f, us, y, c, partial), r - 1);
    }
  }

  /** `root` inverts x^d. */
  ghost predicate InvertsPower<F(!new)>(f: Field<F>, d: nat, root: F -> F) {
    forall x {:trigger Law1(x)} :: root(Pow(f, x, d)) == x && Pow(f, root(x), d) == x
  }

  /** Everything that is divided by is not zero. */
  ghost predicate LayersInvertible<F(!new)>(f: Field<F>, p: Params<F>)
    requires SupportedSize(p.t) && |p.diag| == p.t
  {
    ExternalInvertible(f, p.t) && DiagonalInvertible(f, EffectiveDiagonal(f, p.t, p.diag))
  }

  /** The inverse layers. */
  function UndoLayers<F(!new)>(f: Field<F>, p: Params<F>, root: F -> F): Layers<F>
    requires SupportedSize(p.t) && |p.diag| == p.t
  {
    Layers((v: Vec<F>) => if |v| == p.t then UndoExternal(f, v) else v,
           (v: Vec<F>) => if |v| == p.t then UndoDiagPlusOnes(f, EffectiveDiagonal(f, p.t, p.diag), v) else v,
           root)
  }

  /** The layers of `us` are the inverse layers above. */
  ghost predicate IsUndo<F(!new)>(f: Field<F>, us: Layers<F>, p: Params<F>, root: F -> F)
    requires SupportedSize(p.t) && |p.diag| == p.t
  {
    && (forall v: Vec<F> {:trigger Law1(v)} :: |v| == p.t ==>
          && us.external(v) == UndoExternal(f, v)
          && us.internal(v) == UndoDiagPlusOnes(f, EffectiveDiagonal(f, p.t, p.diag), v))
    && us.sbox == root
  }

  lemma {:induction false} UndoLayersAreUndo<F(!new)>(f: Field<F>, p: Params<F>, root: F -> F)
    requires SupportedSize(p.t) && |p.diag| == p.t
    ensures IsUndo(f, UndoLayers(f, p, root), p, root)
  {
  }

  lemma {:induction false} InternalUndone<F(!new)>(f: Field<F>, p: Params<F>, v: Vec<F>)
    requires IsField(f) && SupportedSize(p.t) && |p.diag| == p.t == |v| && LayersInvertible(f, p)
    ensures var e := EffectiveDiagonal(f, p.t, p.diag);
            && UndoDiagPlusOnes(f, e, InternalLayer(f, p.diag, v)) == v
            && InternalLayer(f, p.diag, UndoDiagPlusOnes(f, e, v)) == v
  {
    var e := EffectiveDiagonal(f, p.t, p.diag);
    DiagonalUndoneLeft(f, e, v);
    DiagonalUndoneRight(f, e, v);
  }

  lemma {:induction false} LayersUndone<F(!new)>(f: Field<F>, ls: Layers<F>, us: Layers<F>, p: Params<F>, root: F -> F, v: Vec<F>)
    requires IsField(f) && SupportedSize(p.t) && |p.diag| == p.t == |v| && LayersInvertible(f, p)
    requires IsCode(f, ls, p) && IsUndo(f, us, p, root)
    ensures |us.external(v)| == p.t && |us.internal(v)| == p.t
    ensures us.external(ls.external(v)) == v && ls.external(us.external(v)) == v
    ensures us.internal(ls.internal(v)) == v && ls.internal(us.internal(v)) == v
  {
    ExternalUndone(f, v);
    InternalUndone(f, p, v);
    assert Law1(v);
    assert Law1(ls.external(v)) && Law1(ls.internal(v));
    assert Law1(us.external(v)) && Law1(us.internal(v));
  }

  lemma {:induction false} UndoIsInverse<F(!new)>(f: Field<F>, ls: Layers<F>, us: Layers<F>, p: Params<F>, root: F -> F)
    requires IsField(f) && SupportedSize(p.t) && |p.diag| == p.t && LayersInvertible(f, p) && InvertsPower(f, p.d, root)
    requires IsCode(f, ls, p) && IsUndo(f, us, p, root)
    ensures KeepSize(us, p.t) && Undoes(us, ls, p.t)
  {
    forall v: Vec<F> | |v| == p.t
      ensures |us.external(v)| == p.t && |us.internal(v)| == p.t
      ensures us.external(ls.external(v)) == v && ls.external(us.external(v)) == v
      ensures us.internal(ls.internal(v)) == v && ls.internal(us.internal(v)) == v
    {
      LayersUndone(f, ls, us, p, root, v);
    }
    forall x: F
      ensures us.sbox(ls.sbox(x)) == x && ls.sbox(us.sbox(x)) == x
    {
      assert Law1(x) && Law1(root(x));
    }
  }

  /** The permutation is a bijection: it is undone, and it undoes, on every state. */
  lemma {:induction false} PermutationIsBijective<F(!new)>(f: Field<F>, p: Params<F>, root: F -> F, x: Vec<F>)
    requires IsField(f) && ShapeOk(p) && SupportedSize(p.t) && |x| == p.t
    requires LayersInvertible(f, p) && InvertsPower(f, p.d, root)
    ensures KeepSize(CodeLayers(f, p), p.t)
    ensures var us := UndoLayers(f, p, root);
            && UndoPermutation(f, us, p, StateAfter(f, CodeLayers(f, p), p, x, p.rounds), p.rounds) == x
            && |UndoPermutation(f, us, p, x, p.rounds)| == p.t
            && StateAfter(f, CodeLayers(f, p), p, UndoPermutation(f, us, p, x, p.rounds), p.rounds) == x
  {
    CodeLayersAreCode(f, p);
    UndoLayersAreUndo(f, p, root);
    UndoIsInverse(f, CodeLayers(f, p), UndoLayers(f, p, root), p, root);
    ScheduleIsUndone(f, CodeLayers(f, p), UndoLayers(f, p, root), p, x, p.rounds);
    ScheduleUndoes(f, CodeLayers(f, p), UndoLayers(f, p, root), p, x, p.rounds);
  }

  // ---------- Sizes 2 and 3, by their determinants

  lemma {:induction false} InverseOfOne<F(!new)>(f: Field<F>)
    requires IsField(f)
    ensures f.inv(f.one) == f.one
  {
    Inverse(f, f.one);
    Basic(f, f.inv(f.one));
  }

  lemma {:induction false} SumOfOnes<F(!new)>(f: Field<F>, n: nat)
    requires IsField(f)
    ensures Sum(f, InvV(f, Ones(f, n))) == FromNat(f, n)
  {
    InverseOfOne(f);
    if n > 0 {
      SumOfOnes(f, n - 1);
      assert InvV(f, Ones(f, n))[..n - 1] == InvV(f, Ones(f, n - 1));
    }
  }

  /** The external layer of size n is invertible where n + 1 is not zero. */
  lemma {:induction false} OnesInvertible<F(!new)>(f: Field<F>, n: nat)
    requires IsField(f) && FromNat(f, n + 1) != f.zero
    ensures DiagonalInvertible(f, Ones(f, n))
  {
    SumOfOnes(f, n);
    AddComm(f, f.one, FromNat(f, n));
  }

  /** n + 1 and a half, doubled, is 2 n + 3. */
  lemma {:induction false} HalfDoubled<F(!new)>(f: Field<F>, n: nat)
    requires IsField(f) && f.add(f.one, f.one) != f.zero
    ensures var two := f.add(f.one, f.one);
            f.mul(two, f.add(FromNat(f, n + 1), f.inv(two))) == FromNat(f, 2 * n + 3)
  {
    hide FromNat, IsField;
    var two, m := f.add(f.one, f.one), FromNat(f, n + 1);
    Distrib(f, two, m, f.inv(two));
    Inverse(f, two);
    DoubleIsTimesTwo(f, m);
    MulComm(f, two, m);
    FromNatAdd(f, n + 1, n + 1);
    FromNatAdd(f, 2 * n + 2, 1);
    FromNatOne(f);
  }

  lemma {:induction false} SumOfBuiltIn<F(!new)>(f: Field<F>, n: nat)
    requires IsField(f)
    ensures var two := f.add(f.one, f.one);
            f.add(f.one, Sum(f, InvV(f, Ones(f, n) + [two]))) == f.add(FromNat(f, n + 1), f.inv(two))
  {
    hide IsField;
    var two := f.add(f.one, f.one);
    var d := Ones(f, n) + [two];
    assert InvV(f, d)[..n] == InvV(f, Ones(f, n));
    SumOfOnes(f, n);
    AddAssoc(f, f.one, FromNat(f, n), f.inv(two));
    AddComm(f, f.one, FromNat(f, n));
  }

  /** 1 + (n ones) + 1/2 is not zero where 2 n + 3 is not. */
  lemma {:induction false} BuiltInDiagonalInvertible<F(!new)>(f: Field<F>, n: nat)
    requires IsField(f) && FromNat(f, 2) != f.zero && FromNat(f, 2 * n + 3) != f.zero
    ensures DiagonalInvertible(f, Ones(f, n) + [f.add(f.one, f.one)])
  {
    var two := f.add(f.one, f.one);
    assert f.one != f.zero;
    hide FromNat, Sum, InvV, IsField;
    FromNatAdd(f, 1, 1);
    FromNatOne(f);
    SumOfBuiltIn(f, n);
    HalfDoubled(f, n);
    MulZero(f, two);
  }

  /**
   For sizes 2 and 3, with 2, 3, 5 and 7 nonzero as in every prime field with
   p > 7, both layers are invertible whatever diagonal is passed in.
   */
  lemma {:induction false} SmallSizesInvertible<F(!new)>(f: Field<F>, t: nat, diag: Vec<F>)
    requires IsField(f) && (t == 2 || t == 3)
    requires FromNat(f, 2) != f.zero && FromNat(f, 3) != f.zero && FromNat(f, 5) != f.zero && FromNat(f, 7) != f.zero
    ensures ExternalInvertible(f, t) && DiagonalInvertible(f, EffectiveDiagonal(f, t, diag))
  {
    var two := f.add(f.one, f.one);
    if t == 2 {
      OnesInvertible(f, 2);
      BuiltInDiagonalInvertible(f, 1);
      assert Ones(f, 1) + [two] == [f.one, two];
    } else {
      FourIsNotZero(f);
      OnesInvertible(f, 3);
      BuiltInDiagonalInvertible(f, 2);
      assert Ones(f, 2) + [two] == [f.one, f.one, two];
    }
  }

  /** So for those sizes the permutation is one to one and onto, whatever diagonal, constants and number of rounds. */
  lemma {:induction false} SmallPermutationIsBijective<F(!new)>(f: Field<F>, p: Params<F>, root: F -> F, x: Vec<F>, y: Vec<F>)
    requires IsField(f) && ShapeOk(p) && (p.t == 2 || p.t == 3) && |x| == p.t == |y|
    requires FromNat(f, 2) != f.zero && FromNat(f, 3) != f.zero && FromNat(f, 5) != f.zero && FromNat(f, 7) != f.zero
    requires InvertsPower(f, p.d, root)
    ensures KeepSize(CodeLayers(f, p), p.t)
    ensures StateAfter(f, CodeLayers(f, p), p, x, p.rounds) == StateAfter(f, CodeLayers(f, p), p, y, p.rounds) ==> x == y
    ensures exists z: Vec<F> :: |z| == p.t && StateAfter(f, CodeLayers(f, p), p, z, p.rounds) == x
  {
    hide IsField, FromNat, InvertsPower, StateAfter, UndoPermutation, CodeLayers, UndoLayers, ExternalInvertible, DiagonalInvertible;
    SmallSizesInvertible(f, p.t, p.diag);
    PermutationIsBijective(f, p, root, x);
    PermutationIsBijective(f, p, root, y);
    var z := UndoPermutation(f, UndoLayers(f, p, root), p, x, p.rounds);
    assert |z| == p.t && StateAfter(f, CodeLayers(f, p), p, z, p.rounds) == x;
  }

  lemma {:induction false} FourIsNotZero<F(!new)>(f: Field<F>)
    requires IsField(f) && FromNat(f, 2) != f.zero
    ensures FromNat(f, 4) != f.zero
  {
    FromNatOne(f);
    FromNatAdd(f, 1, 1);
    FromNatAdd(f, 2, 2);
    DoubleIsTimesTwo(f, FromNat(f, 2));
    if FromNat(f, 4) == f.zero {
      NonzeroProduct(f, FromNat(f, 2), FromNat(f, 2));
    }
  }
}
