/**
 `mat_inverse`: Gauss-Jordan elimination without pivoting. It returns a
 two-sided inverse exactly when every leading block of the matrix is regular.
 */
module Elimination {
  import opened Wrappers
  import opened Field
  import opened LinearAlgebra

  /** x - c y */
  function RowMinus<F>(f: Field<F>, x: Vec<F>, c: F, y: Vec<F>): (r: Vec<F>)
    requires |x| == |y|
    ensures |r| == |x|
  {
    AddV(f, x, ScaleV(f, f.neg(c), y))
  }

  /** The subtraction as the code writes it, entry by entry. */
  lemma {:induction false} RowMinusAt<F(!new)>(f: Field<F>, x: Vec<F>, c: F, y: Vec<F>, i: nat)
    requires IsField(f) && |x| == |y| && i < |x|
    ensures RowMinus(f, x, c, y)[i] == Sub(f, x[i], f.mul(y[i], c))
    ensures x[i] == f.zero && y[i] == f.zero ==> RowMinus(f, x, c, y)[i] == f.zero
    ensures y[i] == f.zero ==> RowMinus(f, x, c, y)[i] == x[i]
    ensures y[i] == f.one && c == x[i] ==> RowMinus(f, x, c, y)[i] == f.zero
  {
    NegMul(f, c, y[i]);
    MulComm(f, c, y[i]);
    MulZero(f, f.neg(c));
    Basic(f, x[i]);
    Basic(f, f.neg(c));
  }

  // ---------- Row operations keep a matrix injective

  lemma {:induction false} IdentityIsInjective<F(!new)>(f: Field<F>, m: Mat<F>, n: nat)
    requires IsField(f) && Square(m, n) && forall i :: 0 <= i < n ==> m[i] == Unit(f, n, i)
    ensures Injective(f, m, n)
  {
    forall v: Vec<F>, w: Vec<F> | |v| == n && |w| == n && MatVec(f, m, v) == MatVec(f, m, w)
      ensures v == w
    {
      forall i | 0 <= i < n
        ensures v[i] == w[i]
      {
        DotUnit(f, n, i, v);
        DotUnit(f, n, i, w);
        assert MatVec(f, m, v)[i] == MatVec(f, m, w)[i];
      }
    }
  }

  lemma {:induction false} RowMinusIsInjective<F(!new)>(f: Field<F>, m: Mat<F>, n: nat, row: nat, c: F, j: nat)
    requires IsField(f) && Square(m, n) && row < n && j < n && row != j && Injective(f, m, n)
    ensures Square(m[row := RowMinus(f, m[row], c, m[j])], n)
    ensures Injective(f, m[row := RowMinus(f, m[row], c, m[j])], n)
  {
    var m' := m[row := RowMinus(f, m[row], c, m[j])];
    forall v: Vec<F>, w: Vec<F> | |v| == n && |w| == n && MatVec(f, m', v) == MatVec(f, m', w)
      ensures v == w
    {
      assert forall i :: 0 <= i < n ==> MatVec(f, m', v)[i] == MatVec(f, m', w)[i];
      RowMinusDot(f, m[row], c, m[j], v);
      RowMinusDot(f, m[row], c, m[j], w);
      assert Dot(f, m[j], v) == MatVec(f, m', v)[j] == MatVec(f, m', w)[j] == Dot(f, m[j], w);
      assert Dot(f, m'[row], v) == MatVec(f, m', v)[row];
      AddCancel(f, Dot(f, m[row], v), Dot(f, m[row], w), f.mul(f.neg(c), Dot(f, m[j], v)));
      forall i | 0 <= i < n
        ensures MatVec(f, m, v)[i] == MatVec(f, m, w)[i]
      {
        if i != row {
          assert MatVec(f, m', v)[i] == MatVec(f, m', w)[i];
        }
      }
      assert MatVec(f, m, v) == MatVec(f, m, w) && Law2(v, w);
    }
  }

  lemma {:induction false} RowMinusDot<F(!new)>(f: Field<F>, x: Vec<F>, c: F, y: Vec<F>, v: Vec<F>)
    requires IsField(f) && |x| == |y| == |v|
    ensures Dot(f, RowMinus(f, x, c, y), v) == f.add(Dot(f, x, v), f.mul(f.neg(c), Dot(f, y, v)))
  {
    DotAddLeft(f, x, ScaleV(f, f.neg(c), y), v);
    DotScaleLeft(f, f.neg(c), y, v);
  }

  lemma {:induction false} RowScaleIsInjective<F(!new)>(f: Field<F>, m: Mat<F>, n: nat, row: nat, c: F)
    requires IsField(f) && Square(m, n) && row < n && c != f.zero && Injective(f, m, n)
    ensures Square(m[row := ScaleV(f, c, m[row])], n)
    ensures Injective(f, m[row := ScaleV(f, c, m[row])], n)
  {
    var m' := m[row := ScaleV(f, c, m[row])];
    forall v: Vec<F>, w: Vec<F> | |v| == n && |w| == n && MatVec(f, m', v) == MatVec(f, m', w)
      ensures v == w
    {
      DotScaleLeft(f, c, m[row], v);
      DotScaleLeft(f, c, m[row], w);
      MulUndo(f, c, Dot(f, m[row], v));
      MulUndo(f, c, Dot(f, m[row], w));
      forall i | 0 <= i < n
        ensures MatVec(f, m, v)[i] == MatVec(f, m, w)[i]
      {
        assert MatVec(f, m', v)[i] == MatVec(f, m', w)[i];
      }
      assert MatVec(f, m, v) == MatVec(f, m, w) && Law2(v, w);
    }
  }

  // ---------- Leading blocks

  ghost predicate ZeroFrom<F>(f: Field<F>, x: Vec<F>, k: nat) {
    forall i :: k <= i < |x| ==> x[i] == f.zero
  }

  ghost predicate ZeroUpTo<F>(f: Field<F>, x: Vec<F>, k: nat) {
    forall i :: 0 <= i < k && i < |x| ==> x[i] == f.zero
  }

  /** The upper left k by k block sends only the zero row vector to zero. */
  ghost predicate LeadingBlockRegular<F(!new)>(f: Field<F>, m: Mat<F>, k: nat)
    requires Square(m, |m|)
  {
    forall x: Vec<F> {:trigger Law1(x)} ::
      |x| == |m| && ZeroFrom(f, x, k) && ZeroUpTo(f, Comb(f, x, m, |m|), k) ==> x == Zeros(f, |m|)
  }

  ghost predicate LeadingBlocksRegular<F(!new)>(f: Field<F>, m: Mat<F>)
    requires Square(m, |m|)
  {
    forall k :: 1 <= k <= |m| ==> LeadingBlockRegular(f, m, k)
  }

  /** A nonzero pivot extends regularity by one row. */
  lemma {:induction false} PivotExtendsRegularity<F(!new)>(f: Field<F>, m: Mat<F>, row: nat, b: Vec<F>)
    requires IsField(f) && Square(m, |m|) && row < |m| && |b| == |m|
    requires row == 0 || LeadingBlockRegular(f, m, row)
    requires ZeroFrom(f, b, row + 1) && b[row] != f.zero
    requires ZeroUpTo(f, Comb(f, b, m, |m|), row) && Comb(f, b, m, |m|)[row] == f.one
    ensures LeadingBlockRegular(f, m, row + 1)
  {
    forall x: Vec<F> | |x| == |m| && ZeroFrom(f, x, row + 1) && ZeroUpTo(f, Comb(f, x, m, |m|), row + 1)
      ensures x == Zeros(f, |m|)
    {
      PivotForcesZero(f, m, row, b, x);
    }
  }

  lemma {:induction false} PivotForcesZero<F(!new)>(f: Field<F>, m: Mat<F>, row: nat, b: Vec<F>, x: Vec<F>)
    requires IsField(f) && Square(m, |m|) && row < |m| && |b| == |m| == |x|
    requires row == 0 || LeadingBlockRegular(f, m, row)
    requires ZeroFrom(f, b, row + 1) && b[row] != f.zero
    requires ZeroUpTo(f, Comb(f, b, m, |m|), row) && Comb(f, b, m, |m|)[row] == f.one
    requires ZeroFrom(f, x, row + 1) && ZeroUpTo(f, Comb(f, x, m, |m|), row + 1)
    ensures x == Zeros(f, |m|)
  {
    var n := |m|;
    var t := f.mul(x[row], f.inv(b[row]));
    var y := RowMinus(f, x, t, b);
    SubtractPivotRow(f, m, row, b, x, t);
    assert y == Zeros(f, n) by {
      assert Law1(y);
    }
    CombZero(f, m, n);
    CombLinear(f, x, f.neg(t), b, m, n);
    assert t == f.zero by {
      RowMinusAt(f, Comb(f, x, m, n), t, Comb(f, b, m, n), row);
      Basic(f, t);
      Basic(f, f.neg(t));
      AddCancel(f, f.zero, t, f.neg(t));
    }
    forall i | 0 <= i < n
      ensures x[i] == f.zero
    {
      RowMinusAt(f, x, t, b, i);
      MulZero(f, b[i]);
      SubAdd(f, x[i], f.zero);
      Basic(f, f.zero);
    }
  }

  /** Subtracting the right multiple of the pivot row shortens a vector the block sends to zero. */
  lemma {:induction false} SubtractPivotRow<F(!new)>(f: Field<F>, m: Mat<F>, row: nat, b: Vec<F>, x: Vec<F>, t: F)
    requires IsField(f) && Square(m, |m|) && row < |m| && |b| == |m| == |x|
    requires ZeroFrom(f, b, row + 1) && b[row] != f.zero && ZeroUpTo(f, Comb(f, b, m, |m|), row)
    requires ZeroFrom(f, x, row + 1) && ZeroUpTo(f, Comb(f, x, m, |m|), row + 1)
    requires t == f.mul(x[row], f.inv(b[row]))
    ensures ZeroFrom(f, RowMinus(f, x, t, b), row)
    ensures ZeroUpTo(f, Comb(f, RowMinus(f, x, t, b), m, |m|), row)
    ensures row == 0 ==> RowMinus(f, x, t, b) == Zeros(f, |m|)
  {
    var n := |m|;
    var y := RowMinus(f, x, t, b);
    CombLinear(f, x, f.neg(t), b, m, n);
    RowMinusAt(f, x, t, b, row);
    MulComm(f, b[row], t);
    MulUndo(f, b[row], x[row]);
    Basic(f, x[row]);
    forall i | row <= i < n
      ensures y[i] == f.zero
    {
      RowMinusAt(f, x, t, b, i);
    }
    forall i | 0 <= i < row
      ensures Comb(f, y, m, n)[i] == f.zero
    {
      RowMinusAt(f, Comb(f, x, m, n), t, Comb(f, b, m, n), i);
    }
  }

  /** A zero pivot exhibits a nonzero vector that the block sends to zero. */
  lemma {:induction false} ZeroPivotIsSingular<F(!new)>(f: Field<F>, m: Mat<F>, row: nat, b: Vec<F>)
    requires IsField(f) && Square(m, |m|) && row < |m| && |b| == |m|
    requires ZeroFrom(f, b, row + 1) && b[row] == f.one && ZeroUpTo(f, Comb(f, b, m, |m|), row + 1)
    ensures !LeadingBlockRegular(f, m, row + 1)
  {
    assert b != Zeros(f, |m|) && Law1(b);
  }

  // ---------- The elimination

  /** The row pair stays the same row of the transformed matrix: inv mat = m. */
  ghost predicate Tracks<F(!new)>(f: Field<F>, mat: Mat<F>, x: Vec<F>, y: Vec<F>)
    requires Square(mat, |mat|)
  {
    |x| == |mat| && |y| == |mat| && Comb(f, x, mat, |mat|) == y
  }

  lemma {:induction false} TracksMinus<F(!new)>(f: Field<F>, mat: Mat<F>, x: Vec<F>, y: Vec<F>, c: F, x': Vec<F>, y': Vec<F>)
    requires IsField(f) && Square(mat, |mat|) && Tracks(f, mat, x, y) && Tracks(f, mat, x', y')
    ensures Tracks(f, mat, RowMinus(f, x, c, x'), RowMinus(f, y, c, y'))
  {
    CombLinear(f, x, f.neg(c), x', mat, |mat|);
  }

  lemma {:induction false} TracksScale<F(!new)>(f: Field<F>, mat: Mat<F>, x: Vec<F>, y: Vec<F>, c: F)
    requires IsField(f) && Square(mat, |mat|) && Tracks(f, mat, x, y)
    ensures Tracks(f, mat, ScaleV(f, c, x), ScaleV(f, c, y))
  {
    var n := |mat|;
    CombLinear(f, Zeros(f, n), c, x, mat, n);
    CombZero(f, mat, n);
    assert AddV(f, Zeros(f, n), ScaleV(f, c, x)) == ScaleV(f, c, x) by {
      forall i | 0 <= i < n ensures f.add(f.zero, f.mul(c, x[i])) == f.mul(c, x[i]) {
        Basic(f, f.mul(c, x[i]));
      }
    }
    assert AddV(f, Zeros(f, n), ScaleV(f, c, y)) == ScaleV(f, c, y) by {
      forall i | 0 <= i < n ensures f.add(f.zero, f.mul(c, y[i])) == f.mul(c, y[i]) {
        Basic(f, f.mul(c, y[i]));
      }
    }
  }

  /** One pass of the first column loop: subtracts row `j`, writing known zeros directly. */
  method EliminateWith<F(!new)>(f: Field<F>, mRow: Vec<F>, invRow: Vec<F>, mj: Vec<F>, invj: Vec<F>, j: nat, row: nat)
    returns (mOut: Vec<F>, invOut: Vec<F>)
    requires IsField(f) && |mRow| == |invRow| == |mj| == |invj| && j < row < |mRow|
    requires ZeroUpTo(f, mRow, j) && ZeroUpTo(f, mj, j)
    requires ZeroFrom(f, invRow, row + 1) && ZeroFrom(f, invj, row + 1)
    ensures mOut == RowMinus(f, mRow, mRow[j], mj)
    ensures invOut == RowMinus(f, invRow, mRow[j], invj)
  {
    var n := |mRow|;
    var el := mRow[j];
    mOut, invOut := mRow, invRow;
    var col := 0;
    while col < n
      invariant 0 <= col <= n && |mOut| == |invOut| == n
      invariant forall i :: 0 <= i < col ==> mOut[i] == RowMinus(f, mRow, el, mj)[i] && invOut[i] == RowMinus(f, invRow, el, invj)[i]
      invariant forall i :: col <= i < n ==> mOut[i] == mRow[i] && invOut[i] == invRow[i]
    {
      RowMinusAt(f, mRow, el, mj, col);
      RowMinusAt(f, invRow, el, invj, col);
      if col < j {
        mOut := mOut[col := f.zero];
      } else {
        mOut := mOut[col := Sub(f, mOut[col], f.mul(mj[col], el))];
      }
      if col > row {
        invOut := invOut[col := f.zero];
      } else {
        invOut := invOut[col := Sub(f, invOut[col], f.mul(invj[col], el))];
      }
      col := col + 1;
    }
  }

  /** The second column loop: makes the pivot one. */
  method ScalePivot<F(!new)>(f: Field<F>, mRow: Vec<F>, invRow: Vec<F>, row: nat) returns (mOut: Vec<F>, invOut: Vec<F>)
    requires IsField(f) && |mRow| == |invRow| && row < |mRow| && mRow[row] != f.zero
    requires ZeroUpTo(f, mRow, row) && ZeroFrom(f, invRow, row + 1)
    ensures mOut == ScaleV(f, f.inv(mRow[row]), mRow)
    ensures invOut == ScaleV(f, f.inv(mRow[row]), invRow)
  {
    var n := |mRow|;
    var elInv := f.inv(mRow[row]);
    mOut, invOut := mRow, invRow;
    var col := 0;
    while col < n
      invariant 0 <= col <= n && |mOut| == |invOut| == n
      invariant forall i :: 0 <= i < col ==> mOut[i] == f.mul(elInv, mRow[i]) && invOut[i] == f.mul(elInv, invRow[i])
      invariant forall i :: col <= i < n ==> mOut[i] == mRow[i] && invOut[i] == invRow[i]
    {
      MulZero(f, elInv);
      Inverse(f, mRow[row]);
      MulComm(f, elInv, mRow[col]);
      MulComm(f, elInv, invRow[col]);
      if col < row {
        invOut := invOut[col := f.mul(invOut[col], elInv)];
      } else if col == row {
        mOut := mOut[col := f.one];
        invOut := invOut[col := f.mul(invOut[col], elInv)];
      } else {
        mOut := mOut[col := f.mul(mOut[col], elInv)];
      }
      col := col + 1;
    }
  }

  /** Rows below `row` are reduced: unit upper triangular on the left, lower triangular on the right. */
  ghost predicate Reduced<F(!new)>(f: Field<F>, m: Mat<F>, inv: Mat<F>, n: nat, row: nat)
    requires Square(m, n) && Square(inv, n) && row <= n
  {
    forall i :: 0 <= i < row ==> ZeroUpTo(f, m[i], i) && m[i][i] == f.one && ZeroFrom(f, inv[i], i + 1)
  }

  ghost predicate RowsTrack<F(!new)>(f: Field<F>, mat: Mat<F>, inv: Mat<F>, m: Mat<F>)
    requires Square(mat, |mat|) && |inv| == |m| == |mat|
  {
    forall i :: 0 <= i < |mat| ==> Tracks(f, mat, inv[i], m[i])
  }

  /** Clears the entries of row `row` left of the diagonal. */
  method ClearLeft<F(!new)>(f: Field<F>, mat: Mat<F>, m: Mat<F>, inv: Mat<F>, row: nat)
    returns (mRow: Vec<F>, invRow: Vec<F>)
    requires IsField(f) && Square(mat, |mat|) && Square(m, |mat|) && Square(inv, |mat|) && row < |mat|
    requires RowsTrack(f, mat, inv, m) && Reduced(f, m, inv, |mat|, row)
    requires inv[row] == Unit(f, |mat|, row) && Injective(f, inv, |mat|)
    ensures |mRow| == |invRow| == |mat| && Tracks(f, mat, invRow, mRow)
    ensures ZeroUpTo(f, mRow, row) && ZeroFrom(f, invRow, row + 1) && invRow[row] == f.one
    ensures Injective(f, inv[row := invRow], |mat|)
  {
    var n := |mat|;
    mRow, invRow := m[row], inv[row];
    assert inv[row := invRow] == inv;
    var j := 0;
    while j < row
      invariant 0 <= j <= row && |mRow| == |invRow| == n
      invariant Tracks(f, mat, invRow, mRow)
      invariant ZeroUpTo(f, mRow, j) && ZeroFrom(f, invRow, row + 1) && invRow[row] == f.one
      invariant Injective(f, inv[row := invRow], n)
    {
      assert ZeroUpTo(f, m[j], j) && ZeroFrom(f, inv[j], j + 1);
      ghost var x, y, el := mRow, invRow, mRow[j];
      mRow, invRow := EliminateWith(f, mRow, invRow, m[j], inv[j], j, row);
      assert Tracks(f, mat, inv[j], m[j]);
      TracksMinus(f, mat, y, x, el, inv[j], m[j]);
      RowMinusIsInjective(f, inv[row := y], n, row, el, j);
      assert inv[row := y][row := invRow] == inv[row := invRow];
      forall i | 0 <= i < n
        ensures i <= j ==> mRow[i] == f.zero
        ensures i > row ==> invRow[i] == f.zero
      {
        RowMinusAt(f, x, el, m[j], i);
        RowMinusAt(f, y, el, inv[j], i);
      }
      RowMinusAt(f, y, el, inv[j], row);
      j := j + 1;
    }
  }

  /** What the first half keeps: `row` rows are reduced, the others untouched. */
  ghost predicate Halfway<F(!new)>(f: Field<F>, mat: Mat<F>, m: Mat<F>, inv: Mat<F>, row: nat)
    requires Square(mat, |mat|) && row <= |mat|
  {
    && Square(m, |mat|) && Square(inv, |mat|)
    && RowsTrack(f, mat, inv, m) && Reduced(f, m, inv, |mat|, row) && Injective(f, inv, |mat|)
    && (forall i :: row <= i < |mat| ==> inv[i] == Unit(f, |mat|, i))
  }

  lemma {:induction false} StartIsHalfway<F(!new)>(f: Field<F>, mat: Mat<F>, inv: Mat<F>)
    requires IsField(f) && Square(mat, |mat|) && |inv| == |mat|
    requires forall i :: 0 <= i < |mat| ==> inv[i] == Unit(f, |mat|, i)
    ensures Halfway(f, mat, mat, inv, 0)
  {
    forall i | 0 <= i < |mat|
      ensures Tracks(f, mat, inv[i], mat[i])
    {
      CombUnit(f, i, mat, |mat|);
    }
    IdentityIsInjective(f, inv, |mat|);
  }

  /** The first half for one row: refuses a zero pivot, which shows a singular block. */
  method ReduceRow<F(!new, ==)>(f: Field<F>, mat: Mat<F>, m: Mat<F>, inv: Mat<F>, row: nat)
    returns (ok: bool, mOut: Mat<F>, invOut: Mat<F>)
    requires IsField(f) && Square(mat, |mat|) && row < |mat| && Halfway(f, mat, m, inv, row)
    requires row == 0 || LeadingBlockRegular(f, mat, row)
    ensures ok <==> LeadingBlockRegular(f, mat, row + 1)
    ensures ok ==> Halfway(f, mat, mOut, invOut, row + 1)
  {
    var n := |mat|;
    var mRow, invRow := ClearLeft(f, mat, m, inv, row);
    var pivot := mRow[row];
    if pivot == f.zero {
      ZeroPivotIsSingular(f, mat, row, invRow);
      return false, m, inv;
    }
    ghost var y := invRow;
    PivotRow(f, mat, mRow, invRow, row);
    RowScaleIsInjective(f, inv[row := y], n, row, f.inv(pivot));
    mRow, invRow := ScalePivot(f, mRow, invRow, row);
    assert inv[row := y][row := invRow] == inv[row := invRow];
    return true, m[row := mRow], inv[row := invRow];
  }

  /** The first half: unit upper triangular form, unless a pivot is zero. */
  method Forward<F(!new, ==)>(f: Field<F>, mat: Mat<F>) returns (ok: bool, m: Mat<F>, inv: Mat<F>)
    requires IsField(f) && Square(mat, |mat|)
    ensures ok <==> LeadingBlocksRegular(f, mat)
    ensures ok ==> Halfway(f, mat, m, inv, |mat|)
  {
    var n := |mat|;
    m := mat;
    inv := seq(n, i requires 0 <= i => Unit(f, n, i));
    StartIsHalfway(f, mat, inv);
    var row := 0;
    while row < n
      invariant 0 <= row <= n && Halfway(f, mat, m, inv, row)
      invariant forall k :: 1 <= k <= row ==> LeadingBlockRegular(f, mat, k)
    {
      ok, m, inv := ReduceRow(f, mat, m, inv, row);
      if !ok {
        return;
      }
      row := row + 1;
    }
    ok := true;
  }

  /** After scaling by a nonzero pivot, row `row` is reduced and one more block is regular. */
  lemma {:induction false} PivotRow<F(!new)>(f: Field<F>, mat: Mat<F>, mRow: Vec<F>, invRow: Vec<F>, row: nat)
    requires IsField(f) && Square(mat, |mat|) && row < |mat| && |mRow| == |invRow| == |mat|
    requires Tracks(f, mat, invRow, mRow) && ZeroUpTo(f, mRow, row) && ZeroFrom(f, invRow, row + 1)
    requires invRow[row] == f.one && mRow[row] != f.zero
    requires row == 0 || LeadingBlockRegular(f, mat, row)
    ensures var c := f.inv(mRow[row]);
            && c != f.zero
            && Tracks(f, mat, ScaleV(f, c, invRow), ScaleV(f, c, mRow))
            && ZeroUpTo(f, ScaleV(f, c, mRow), row) && ScaleV(f, c, mRow)[row] == f.one
            && ZeroFrom(f, ScaleV(f, c, invRow), row + 1)
    ensures LeadingBlockRegular(f, mat, row + 1)
  {
    var c := f.inv(mRow[row]);
    Inverse(f, mRow[row]);
    MulZero(f, mRow[row]);
    MulZero(f, c);
    Basic(f, c);
    TracksScale(f, mat, invRow, mRow, c);
    PivotExtendsRegularity(f, mat, row, ScaleV(f, c, invRow));
  }

  // ---------- Back substitution

  /** Row `x` has reached unit form from column `j` on, and is still `u` before. */
  ghost predicate ClearedFrom<F>(f: Field<F>, x: Vec<F>, u: Vec<F>, row: nat, j: nat)
    requires |x| == |u|
  {
    forall c :: 0 <= c < |x| ==> x[c] == if c < j then u[c] else if c == row then f.one else f.zero
  }

  /** One pass of the last column loop. `mRow` is written only in debug builds. */
  method SubtractFrom<F(!new)>(f: Field<F>, mRow: Vec<F>, invRow: Vec<F>, invj: Vec<F>, j: nat, debug: bool)
    returns (mOut: Vec<F>, invOut: Vec<F>)
    requires IsField(f) && |mRow| == |invRow| == |invj| && j < |mRow|
    ensures invOut == RowMinus(f, invRow, mRow[j], invj)
    ensures |mOut| == |mRow| && forall c :: 0 <= c < |mRow| ==> mOut[c] == if debug && c >= j then f.zero else mRow[c]
  {
    var n := |mRow|;
    var el := mRow[j];
    mOut, invOut := mRow, invRow;
    var col := 0;
    while col < n
      invariant 0 <= col <= n && |mOut| == |invOut| == n
      invariant forall i :: 0 <= i < col ==> invOut[i] == RowMinus(f, invRow, el, invj)[i]
      invariant forall i :: col <= i < n ==> invOut[i] == invRow[i]
      invariant forall i :: 0 <= i < n ==> mOut[i] == if debug && j <= i < col then f.zero else mRow[i]
    {
      RowMinusAt(f, invRow, el, invj, col);
      if debug && col >= j {
        mOut := mOut[col := f.zero];
      }
      invOut := invOut[col := Sub(f, invOut[col], f.mul(invj[col], el))];
      col := col + 1;
    }
  }

  /** Turns row `row` into a unit row; the rows after it already are. */
  method BackRow<F(!new)>(f: Field<F>, mat: Mat<F>, u: Vec<F>, inv: Mat<F>, row: nat, debug: bool)
    returns (mRow: Vec<F>, invRow: Vec<F>)
    requires IsField(f) && Square(mat, |mat|) && Square(inv, |mat|) && row < |mat| && Injective(f, inv, |mat|)
    requires Tracks(f, mat, inv[row], u) && ZeroUpTo(f, u, row) && u[row] == f.one
    requires forall i :: row < i < |mat| ==> Tracks(f, mat, inv[i], Unit(f, |mat|, i))
    ensures |invRow| == |mat| && Tracks(f, mat, invRow, Unit(f, |mat|, row))
    ensures Injective(f, inv[row := invRow], |mat|)
    ensures mRow == if debug then Unit(f, |mat|, row) else u
  {
    var n := |mat|;
    mRow, invRow := u, inv[row];
    assert inv[row := invRow] == inv;
    var j := n;
    while j > row + 1
      invariant row + 1 <= j <= n && |mRow| == |invRow| == n
      invariant Injective(f, inv[row := invRow], n)
      invariant ClearedFrom(f, Comb(f, invRow, mat, n), u, row, j)
      invariant forall c :: 0 <= c < n ==> mRow[c] == if debug && c >= j then f.zero else u[c]
    {
      j := j - 1;
      ghost var y, el := invRow, mRow[j];
      mRow, invRow := SubtractFrom(f, mRow, invRow, inv[j], j, debug);
      assert Tracks(f, mat, inv[j], Unit(f, n, j));
      CombLinear(f, y, f.neg(el), inv[j], mat, n);
      forall c | 0 <= c < n
        ensures Comb(f, invRow, mat, n)[c] == if c < j then u[c] else if c == row then f.one else f.zero
      {
        RowMinusAt(f, Comb(f, y, mat, n), el, Unit(f, n, j), c);
      }
      RowMinusIsInjective(f, inv[row := y], n, row, el, j);
      assert inv[row := y][row := invRow] == inv[row := invRow];
    }
    assert Comb(f, invRow, mat, n) == Unit(f, n, row);
    if debug {
      assert mRow == Unit(f, n, row);
    } else {
      assert mRow == u;
    }
  }

  /** The second half: identity form. */
  method Backward<F(!new)>(f: Field<F>, mat: Mat<F>, u: Mat<F>, start: Mat<F>, debug: bool) returns (m: Mat<F>, inv: Mat<F>)
    requires IsField(f) && Square(mat, |mat|) && Square(u, |mat|) && Square(start, |mat|)
    requires RowsTrack(f, mat, start, u) && Reduced(f, u, start, |mat|, |mat|) && Injective(f, start, |mat|)
    ensures Square(inv, |mat|) && LeftInverse(f, inv, mat, |mat|) && Injective(f, inv, |mat|)
    ensures |m| == |mat| && (debug ==> forall i :: 0 <= i < |mat| ==> m[i] == Unit(f, |mat|, i))
  {
    var n := |mat|;
    m, inv := u, start;
    var row := n;
    while row > 0
      invariant 0 <= row <= n && |m| == n && Square(inv, n) && Injective(f, inv, n)
      invariant forall i :: 0 <= i < row ==> m[i] == u[i] && inv[i] == start[i]
      invariant forall i :: row <= i < n ==> Tracks(f, mat, inv[i], Unit(f, n, i)) && (debug ==> m[i] == Unit(f, n, i))
    {
      row := row - 1;
      assert Tracks(f, mat, start[row], u[row]) && ZeroUpTo(f, u[row], row);
      var mRow, invRow := BackRow(f, mat, m[row], inv, row, debug);
      m, inv := m[row := mRow], inv[row := invRow];
    }
  }

  /**
   `mat_inverse`. `None` is the panic on a zero pivot; in debug builds the
   final assertions are run as well, and never fail.
   */
  method MatInverse<F(!new, ==)>(f: Field<F>, mat: Mat<F>, debug: bool) returns (r: Option<Mat<F>>)
    requires IsField(f) && |mat| > 0 && Square(mat, |mat|)
    ensures r.Some? <==> LeadingBlocksRegular(f, mat)
    ensures r.Some? ==> Square(r.value, |mat|) && Inverses(f, r.value, mat, |mat|)
  {
    var ok, m, inv := Forward(f, mat);
    if !ok {
      return None;
    }
    assert RowsTrack(f, mat, inv, m) && Reduced(f, m, inv, |mat|, |mat|);
    m, inv := Backward(f, mat, m, inv, debug);
    if debug {
      var row := 0;
      while row < |m|
        invariant 0 <= row <= |m|
      {
        if m[row] != Unit(f, |mat|, row) {
          return None;
        }
        row := row + 1;
      }
    }
    LeftInverseIsInverse(f, inv, mat, |mat|);
    return Some(inv);
  }

  /** A matrix has at most one inverse, so the debug writes cannot change the result. */
  lemma {:induction false} InverseIsUnique<F(!new)>(f: Field<F>, m: Mat<F>, a: Mat<F>, b: Mat<F>, n: nat)
    requires IsField(f) && Square(m, n) && Square(a, n) && Square(b, n)
    requires Inverses(f, a, m, n) && Inverses(f, b, m, n)
    ensures a == b
  {
    forall i | 0 <= i < n
      ensures a[i] == b[i]
    {
      SameRow(f, m, a, b, n, i);
    }
  }

  lemma {:induction false} SameRow<F(!new)>(f: Field<F>, m: Mat<F>, a: Mat<F>, b: Mat<F>, n: nat, i: nat)
    requires IsField(f) && Square(m, n) && Square(a, n) && Square(b, n) && i < n
    requires Inverses(f, a, m, n) && Inverses(f, b, m, n)
    ensures a[i] == b[i]
  {
    forall j | 0 <= j < n
      ensures a[i][j] == b[i][j]
    {
      SameColumn(f, m, a, b, n, i, j);
    }
  }

  lemma {:induction false} SameColumn<F(!new)>(f: Field<F>, m: Mat<F>, a: Mat<F>, b: Mat<F>, n: nat, i: nat, j: nat)
    requires IsField(f) && Square(m, n) && Square(a, n) && Square(b, n) && i < n && j < n
    requires Inverses(f, a, m, n) && Inverses(f, b, m, n)
    ensures a[i][j] == b[i][j]
  {
    var e := Unit(f, n, j);
    SameImage(f, m, a, b, n, e);
    assert Dot(f, a[i], e) == MatVec(f, a, e)[i] == MatVec(f, b, e)[i] == Dot(f, b[i], e);
    EntryIsDot(f, n, j, a[i]);
    EntryIsDot(f, n, j, b[i]);
  }

  lemma {:induction false} EntryIsDot<F(!new)>(f: Field<F>, n: nat, j: nat, x: Vec<F>)
    requires IsField(f) && |x| == n && j < n
    ensures Dot(f, x, Unit(f, n, j)) == x[j]
  {
    DotComm(f, x, Unit(f, n, j));
    DotUnit(f, n, j, x);
  }

  lemma {:induction false} SameImage<F(!new)>(f: Field<F>, m: Mat<F>, a: Mat<F>, b: Mat<F>, n: nat, v: Vec<F>)
    requires Square(m, n) && Square(a, n) && Square(b, n) && |v| == n
    requires Inverses(f, a, m, n) && Inverses(f, b, m, n)
    ensures MatVec(f, a, v) == MatVec(f, b, v)
  {
    assert Law1(v) && Law1(MatVec(f, b, v));
  }

  /** The exchange matrix is its own inverse and is refused all the same. */
  lemma {:induction false} ExchangeIsRefused<F(!new)>(f: Field<F>, m: Mat<F>)
    requires IsField(f) && m == [[f.zero, f.one], [f.one, f.zero]]
    ensures Inverses(f, m, m, 2) && !LeadingBlocksRegular(f, m)
  {
    assert m[0] == Unit(f, 2, 1) && m[1] == Unit(f, 2, 0);
    forall v: Vec<F> | |v| == 2
      ensures MatVec(f, m, MatVec(f, m, v)) == v
    {
      DotUnit(f, 2, 0, v);
      DotUnit(f, 2, 1, v);
      var w := MatVec(f, m, v);
      assert w == [v[1], v[0]];
      DotUnit(f, 2, 0, w);
      DotUnit(f, 2, 1, w);
    }
    CombUnit(f, 0, m, 2);
    ZeroPivotIsSingular(f, m, 0, Unit(f, 2, 0));
  }
}
