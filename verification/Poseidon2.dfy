/** The Poseidon2 permutation: in-place layers, the round schedule and the dense reference. */
module Poseidon2 {
  import opened Wrappers
  import opened Field
  import opened LinearAlgebra
  import opened Poseidon2Layers

  datatype Params<F> = Params(
    t: nat,
    d: nat,
    roundsFDiv2: nat,
    roundsP: nat,
    rounds: nat,
    diag: Vec<F>,
    roundConstants: seq<Vec<F>>)

  /** `Poseidon2Params::new`; `None` is a failed assertion. */
  function NewParams<F>(t: nat, d: nat, roundsF: nat, roundsP: nat, diag: Vec<F>, roundConstants: seq<Vec<F>>): Option<Params<F>> {
    if !(d == 3 || d == 5 || d == 7 || d == 11) || roundsF % 2 != 0 then None
    else Some(Params(t, d, roundsF / 2, roundsP, roundsF + roundsP, diag, roundConstants))
  }

  /** The parameters it returns: the given ones, with half of the full rounds on each side of the partial ones. */
  lemma NewParamsSplitsTheRounds<F>(t: nat, d: nat, roundsF: nat, roundsP: nat, diag: Vec<F>, roundConstants: seq<Vec<F>>)
    ensures NewParams(t, d, roundsF, roundsP, diag, roundConstants).Some? <==> d in {3, 5, 7, 11} && roundsF % 2 == 0
    ensures NewParams(t, d, roundsF, roundsP, diag, roundConstants).Some? ==>
              var p := NewParams(t, d, roundsF, roundsP, diag, roundConstants).value;
              && p.roundsFDiv2 + p.roundsFDiv2 == roundsF && p.roundsP == roundsP
              && p.rounds == p.roundsFDiv2 + p.roundsP + p.roundsFDiv2
              && p.t == t && p.d == d && p.diag == diag && p.roundConstants == roundConstants
  {
  }

  /** The tables have what the rounds read: a row for each full round, an entry for each partial one. */
  ghost predicate ShapeOk<F(!new)>(p: Params<F>) {
    && p.rounds == 2 * p.roundsFDiv2 + p.roundsP
    && |p.diag| == p.t && |p.roundConstants| >= p.rounds
    && forall r: nat :: r < p.rounds ==> |p.roundConstants[r]| >= if IsPartial(p, r) then 1 else p.t
  }

  /** The part of a row that round `r` reads. */
  ghost function Row<F(!new)>(p: Params<F>, r: nat): (c: Vec<F>)
    requires ShapeOk(p) && r < p.rounds
    ensures |c| == if IsPartial(p, r) then 1 else p.t
  {
    p.roundConstants[r][..if IsPartial(p, r) then 1 else p.t]
  }

  predicate IsPartial<F>(p: Params<F>, r: nat) {
    p.roundsFDiv2 <= r < p.roundsFDiv2 + p.roundsP
  }

  // ---------- The S-box

  function Pow<F>(f: Field<F>, x: F, n: nat): F {
    if n == 0 then f.one else f.mul(Pow(f, x, n - 1), x)
  }

  predicate SupportedDegree(d: nat) {
    d == 3 || d == 5 || d == 7
  }

  /** `sbox_p`: squarings and multiplications; `None` is its panic. */
  function SboxP<F>(f: Field<F>, d: nat, x: F): (r: Option<F>)
    ensures r.Some? <==> SupportedDegree(d)
  {
    var x2 := f.mul(x, x);
    if d == 3 then Some(f.mul(x2, x))
    else if d == 5 then Some(f.mul(f.mul(x2, x2), x))
    else if d == 7 then Some(f.mul(f.mul(f.mul(x2, x2), x2), x))
    else None
  }

  /** The S-box raises to the power `d`. */
  lemma {:induction false} SboxIsPower<F(!new)>(f: Field<F>, d: nat, x: F)
    requires IsField(f) && SupportedDegree(d)
    ensures SboxP(f, d, x) == Some(Pow(f, x, d))
  {
    var x2, x4 := f.mul(x, x), f.mul(f.mul(x, x), f.mul(x, x));
    Basic(f, x);
    assert Pow(f, x, 1) == f.mul(Pow(f, x, 0), x) == x;
    assert Pow(f, x, 2) == x2;
    assert Pow(f, x, 3) == f.mul(x2, x);
    assert Pow(f, x, 4) == f.mul(f.mul(x2, x), x);
    MulAssoc(f, x2, x, x);
    assert Pow(f, x, 4) == x4;
    assert Pow(f, x, 5) == f.mul(x4, x);
    assert Pow(f, x, 6) == f.mul(f.mul(x4, x), x);
    MulAssoc(f, x4, x, x);
    assert Pow(f, x, 7) == f.mul(f.mul(x4, x2), x);
  }

  function PowAll<F>(f: Field<F>, x: Vec<F>, d: nat): (r: Vec<F>)
    ensures |r| == |x| && forall i :: 0 <= i < |r| ==> r[i] == Pow(f, x[i], d)
  {
    seq(|x|, i requires 0 <= i < |x| => Pow(f, x[i], d))
  }

  // ---------- The round schedule, over any layers

  /** The parts a round is made of. */
  datatype Layers<!F> = Layers(external: Vec<F> -> Vec<F>, internal: Vec<F> -> Vec<F>, sbox: F -> F)

  ghost predicate KeepSize<F(!new)>(ls: Layers<F>, t: nat) {
    && (forall v: Vec<F> {:trigger ls.external(v)} :: |v| == t ==> |ls.external(v)| == t)
    && (forall v: Vec<F> {:trigger ls.internal(v)} :: |v| == t ==> |ls.internal(v)| == t)
  }

  function MapV<F>(s: F -> F, x: Vec<F>): (r: Vec<F>)
    ensures |r| == |x| && forall i :: 0 <= i < |r| ==> r[i] == s(x[i])
  {
    seq(|x|, i requires 0 <= i < |x| => s(x[i]))
  }

  /** Constants, S-box and linear layer; a partial round touches entry 0 before the layer. */
  function Round<F>(f: Field<F>, ls: Layers<F>, x: Vec<F>, c: Vec<F>, partial: bool): Vec<F>
    requires |x| > 0 && if partial then |c| > 0 else |c| == |x|
  {
    if partial then ls.internal(x[0 := ls.sbox(f.add(x[0], c[0]))])
    else ls.external(MapV(ls.sbox, AddV(f, x, c)))
  }

  /** The state after the first layer and `r` rounds. */
  ghost function StateAfter<F(!new)>(f: Field<F>, ls: Layers<F>, p: Params<F>, input: Vec<F>, r: nat): (x: Vec<F>)
    requires ShapeOk(p) && p.t > 0 && KeepSize(ls, p.t) && |input| == p.t && r <= p.rounds
    ensures |x| == p.t
  {
    if r == 0 then ls.external(input)
    else Round(f, ls, StateAfter(f, ls, p, input, r - 1), Row(p, r - 1), IsPartial(p, r - 1))
  }

  // ---------- The code's layers and the dense reference

  /** The cheap layers and the S-box. */
  function CodeLayers<F(!new)>(f: Field<F>, p: Params<F>): Layers<F>
    requires SupportedSize(p.t) && |p.diag| == p.t
  {
    Layers((v: Vec<F>) => if |v| == p.t then ExternalLayer(f, v) else v,
           (v: Vec<F>) => if |v| == p.t then InternalLayer(f, p.diag, v) else v,
           (x: F) => Pow(f, x, p.d))
  }

  /** The layers the in-place methods compute. */
  ghost predicate IsCode<F(!new)>(f: Field<F>, ls: Layers<F>, p: Params<F>)
    requires SupportedSize(p.t) && |p.diag| == p.t
  {
    && (forall v: Vec<F> {:trigger Law1(v)} :: |v| == p.t ==>
          ls.external(v) == ExternalLayer(f, v) && ls.internal(v) == InternalLayer(f, p.diag, v))
    && (forall x: F {:trigger Law1(x)} :: ls.sbox(x) == Pow(f, x, p.d))
  }

  lemma {:induction false} CodeLayersAreCode<F(!new)>(f: Field<F>, p: Params<F>)
    requires SupportedSize(p.t) && |p.diag| == p.t
    ensures IsCode(f, CodeLayers(f, p), p) && KeepSize(CodeLayers(f, p), p.t)
  {
  }

  /** Adds a whole row of constants, applies the S-box and multiplies by a matrix. */
  function DenseRound<F>(f: Field<F>, m: Mat<F>, d: nat, x: Vec<F>, c: Vec<F>, partial: bool): (r: Vec<F>)
    requires Square(m, |x|) && |c| == |x| > 0
    ensures |r| == |x|
  {
    var y := AddV(f, x, c);
    MatVec(f, m, if partial then y[0 := Pow(f, y[0], d)] else PowAll(f, y, d))
  }

  /** A whole row for the reference: a short one stands for zeros. */
  ghost function WholeRow<F(!new)>(f: Field<F>, p: Params<F>, r: nat): (c: Vec<F>)
    requires ShapeOk(p) && r < p.rounds
    ensures |c| == p.t
    ensures forall i :: 0 <= i < p.t ==> c[i] == if i < |p.roundConstants[r]| then p.roundConstants[r][i] else f.zero
  {
    seq(p.t, i requires 0 <= i && r < |p.roundConstants| =>
      if i < |p.roundConstants[r]| then p.roundConstants[r][i] else f.zero)
  }

  /** The reference: the first multiplication and `r` rounds with dense matrices. */
  ghost function DenseAfter<F(!new)>(f: Field<F>, p: Params<F>, external: Mat<F>, internal: Mat<F>, input: Vec<F>, r: nat): (x: Vec<F>)
    requires ShapeOk(p) && p.t > 0 && Square(external, p.t) && Square(internal, p.t) && |input| == p.t && r <= p.rounds
    ensures |x| == p.t
  {
    if r == 0 then MatVec(f, external, input)
    else
      DenseRound(f, if IsPartial(p, r - 1) then internal else external, p.d,
                 DenseAfter(f, p, external, internal, input, r - 1), WholeRow(f, p, r - 1), IsPartial(p, r - 1))
  }

  /** Partial rounds add to entry 0 only. */
  ghost predicate PartialRowsAreZero<F(!new)>(f: Field<F>, p: Params<F>)
    requires ShapeOk(p)
  {
    forall r: nat, i: nat :: r < p.rounds && IsPartial(p, r) && 1 <= i < p.t && i < |p.roundConstants[r]| ==>
      p.roundConstants[r][i] == f.zero
  }

  lemma {:induction false} RowsAgree<F(!new)>(f: Field<F>, p: Params<F>, r: nat)
    requires ShapeOk(p) && PartialRowsAreZero(f, p) && p.t > 0 && r < p.rounds
    ensures var c, whole := Row(p, r), WholeRow(f, p, r);
            if IsPartial(p, r) then |c| > 0 && c[0] == whole[0] && forall i :: 1 <= i < |whole| ==> whole[i] == f.zero else c == whole
  {
  }

  /** The layers are these matrices, and the S-box is the power `d`. */
  ghost predicate LayersAreDense<F(!new)>(f: Field<F>, ls: Layers<F>, d: nat, external: Mat<F>, internal: Mat<F>, t: nat)
    requires Square(external, t) && Square(internal, t)
  {
    && (forall v: Vec<F> {:trigger Law1(v)} :: |v| == t ==>
          ls.external(v) == MatVec(f, external, v) && ls.internal(v) == MatVec(f, internal, v))
    && (forall x: F {:trigger Law1(x)} :: ls.sbox(x) == Pow(f, x, d))
  }

  lemma {:induction false} RoundIsDense<F(!new)>(f: Field<F>, ls: Layers<F>, d: nat, external: Mat<F>, internal: Mat<F>, x: Vec<F>, c: Vec<F>, whole: Vec<F>, partial: bool)
    requires IsField(f) && |x| == |whole| > 0 && Square(external, |x|) && Square(internal, |x|)
    requires LayersAreDense(f, ls, d, external, internal, |x|)
    requires if partial then |c| > 0 && c[0] == whole[0] && forall i :: 1 <= i < |whole| ==> whole[i] == f.zero else c == whole
    ensures Round(f, ls, x, c, partial) == DenseRound(f, if partial then internal else external, d, x, whole, partial)
  {
    var y := AddV(f, x, whole);
    forall i | 0 <= i < |x|
      ensures ls.sbox(y[i]) == Pow(f, y[i], d) && (partial && i > 0 ==> y[i] == x[i])
    {
      assert Law1(y[i]);
      Basic(f, x[i]);
    }
    if partial {
      var z := x[0 := ls.sbox(f.add(x[0], c[0]))];
      assert y[0 := Pow(f, y[0], d)] == z && Law1(z);
    } else {
      assert MapV(ls.sbox, y) == PowAll(f, y, d) && Law1(PowAll(f, y, d));
    }
  }

  /** Round by round, a permutation with dense layers is the reference. */
  lemma {:induction false} ScheduleIsReference<F(!new)>(f: Field<F>, ls: Layers<F>, p: Params<F>, external: Mat<F>, internal: Mat<F>, input: Vec<F>, r: nat)
    requires IsField(f) && ShapeOk(p) && p.t > 0 && KeepSize(ls, p.t) && Square(external, p.t) && Square(internal, p.t)
    requires LayersAreDense(f, ls, p.d, external, internal, p.t) && PartialRowsAreZero(f, p)
    requires |input| == p.t && r <= p.rounds
    ensures StateAfter(f, ls, p, input, r) == DenseAfter(f, p, external, internal, input, r)
  {
    hide Round, DenseRound, MatVec, KeepSize;
    if r == 0 {
      assert Law1(input);
    } else {
      ScheduleIsReference(f, ls, p, external, internal, input, r - 1);
      RowsAgree(f, p, r - 1);
      RoundIsDense(f, ls, p.d, external, internal, StateAfter(f, ls, p, input, r - 1), Row(p, r - 1), WholeRow(f, p, r - 1), IsPartial(p, r - 1));
    }
  }

  lemma {:induction false} CodeIsDense<F(!new)>(f: Field<F>, ls: Layers<F>, p: Params<F>)
    requires IsField(f) && SupportedSize(p.t) && |p.diag| == p.t
    requires IsCode(f, ls, p)
    ensures LayersAreDense(f, ls, p.d, ExternalMatrix(f, p.t), InternalMatrix(f, p.t, p.diag), p.t)
  {
    forall v: Vec<F> {:trigger ls.external(v)} {:trigger ls.internal(v)} | |v| == p.t
      ensures ls.external(v) == MatVec(f, ExternalMatrix(f, p.t), v) && ls.internal(v) == MatVec(f, InternalMatrix(f, p.t, p.diag), v)
    {
      CodeIsDenseAt(f, ls, p, v);
    }
    forall x: F ensures ls.sbox(x) == Pow(f, x, p.d) {
      assert Law1(x);
    }
  }

  lemma {:induction false} CodeIsDenseAt<F(!new)>(f: Field<F>, ls: Layers<F>, p: Params<F>, v: Vec<F>)
    requires IsField(f) && SupportedSize(p.t) && |p.diag| == p.t == |v|
    requires IsCode(f, ls, p)
    ensures ls.external(v) == MatVec(f, ExternalMatrix(f, p.t), v) && ls.internal(v) == MatVec(f, InternalMatrix(f, p.t, p.diag), v)
  {
    assert Law1(v);
    ExternalIsDense(f, v);
    InternalIsMatrix(f, p.diag, v);
  }

  // ---------- The reference in three stretches

  /** Dense rounds of one kind, one for each row. */
  function DenseRounds<F>(f: Field<F>, m: Mat<F>, d: nat, x: Vec<F>, rows: seq<Vec<F>>, partial: bool): (r: Vec<F>)
    requires |x| > 0 && Square(m, |x|) && forall i :: 0 <= i < |rows| ==> |rows[i]| == |x|
    ensures |r| == |x|
  {
    if rows == [] then x
    else
      var n := |rows| - 1;
      DenseRound(f, m, d, DenseRounds(f, m, d, x, rows[..n], partial), rows[n], partial)
  }

  /** Rows `from` to `from + n - 1` of a table, cut or filled with zeros to `t` entries. */
  function WholeRows<F>(f: Field<F>, table: seq<Vec<F>>, t: nat, from: nat, n: nat): (rows: seq<Vec<F>>)
    requires from + n <= |table|
    ensures |rows| == n
    ensures forall r :: 0 <= r < n ==> |rows[r]| == t
    ensures forall r, i :: 0 <= r < n && 0 <= i < t ==>
              rows[r][i] == if i < |table[from + r]| then table[from + r][i] else f.zero
  {
    seq(n, r requires 0 <= r < n && from + n <= |table| =>
      seq(t, i requires 0 <= i => if i < |table[from + r]| then table[from + r][i] else f.zero))
  }

  /** One multiplication, `half` full rounds, `middle` partial rounds and `half` full rounds. */
  function Reference<F>(f: Field<F>, external: Mat<F>, internal: Mat<F>, d: nat, half: nat, middle: nat, table: seq<Vec<F>>, input: Vec<F>): Vec<F>
    requires |input| > 0 && Square(external, |input|) && Square(internal, |input|) && half + middle + half <= |table|
  {
    var t := |input|;
    var first := DenseRounds(f, external, d, MatVec(f, external, input), WholeRows(f, table, t, 0, half), false);
    var second := DenseRounds(f, internal, d, first, WholeRows(f, table, t, half, middle), true);
    DenseRounds(f, external, d, second, WholeRows(f, table, t, half + middle, half), false)
  }

  /** A stretch of rounds of one kind in the schedule. */
  lemma {:induction false} Stretch<F(!new)>(f: Field<F>, p: Params<F>, external: Mat<F>, internal: Mat<F>, input: Vec<F>, from: nat, n: nat, partial: bool)
    requires ShapeOk(p) && p.t > 0 && Square(external, p.t) && Square(internal, p.t) && |input| == p.t && from + n <= p.rounds
    requires forall r: nat :: from <= r < from + n ==> IsPartial(p, r) == partial
    ensures DenseAfter(f, p, external, internal, input, from + n)
            == DenseRounds(f, if partial then internal else external, p.d, DenseAfter(f, p, external, internal, input, from),
                           WholeRows(f, p.roundConstants, p.t, from, n), partial)
    decreases n
  {
    hide DenseRound, MatVec;
    if n > 0 {
      var rows := WholeRows(f, p.roundConstants, p.t, from, n);
      Stretch(f, p, external, internal, input, from, n - 1, partial);
      assert rows[..n - 1] == WholeRows(f, p.roundConstants, p.t, from, n - 1);
      assert rows[n - 1] == WholeRow(f, p, from + n - 1);
    }
  }

  lemma {:induction false} ScheduleIsThreeStretches<F(!new)>(f: Field<F>, p: Params<F>, external: Mat<F>, internal: Mat<F>, input: Vec<F>)
    requires ShapeOk(p) && p.t > 0 && Square(external, p.t) && Square(internal, p.t) && |input| == p.t
    ensures DenseAfter(f, p, external, internal, input, p.rounds)
            == Reference(f, external, internal, p.d, p.roundsFDiv2, p.roundsP, p.roundConstants, input)
  {
    hide DenseRounds, MatVec, DenseRound, WholeRows;
    assert DenseAfter(f, p, external, internal, input, 0) == MatVec(f, external, input);
    Stretch(f, p, external, internal, input, 0, p.roundsFDiv2, false);
    Stretch(f, p, external, internal, input, p.roundsFDiv2, p.roundsP, true);
    Stretch(f, p, external, internal, input, p.roundsFDiv2 + p.roundsP, p.roundsFDiv2, false);
  }

  /**
   The permutation the code computes is the dense reference, for every size, if
   the partial rounds' constants are zero after entry 0.
   */
  lemma {:induction false} PermutationIsReference<F(!new)>(f: Field<F>, p: Params<F>, input: Vec<F>)
    requires IsField(f) && ShapeOk(p) && SupportedSize(p.t) && |input| == p.t && PartialRowsAreZero(f, p)
    ensures KeepSize(CodeLayers(f, p), p.t)
    ensures StateAfter(f, CodeLayers(f, p), p, input, p.rounds)
            == Reference(f, ExternalMatrix(f, p.t), InternalMatrix(f, p.t, p.diag), p.d, p.roundsFDiv2, p.roundsP, p.roundConstants, input)
  {
    CodeLayersAreCode(f, p);
    CodeIsDense(f, CodeLayers(f, p), p);
    ScheduleIsReference(f, CodeLayers(f, p), p, ExternalMatrix(f, p.t), InternalMatrix(f, p.t, p.diag), input, p.rounds);
    ScheduleIsThreeStretches(f, p, ExternalMatrix(f, p.t), InternalMatrix(f, p.t, p.diag), input);
  }

  // ---------- The layers in place

  /** The body of the loop of `matmul_m4`: one block, four entries from `s`. */
  method M4InPlace<F(!new)>(f: Field<F>, a: array<F>, s: nat)
    requires s + 4 <= a.Length
    modifies a
    ensures a[..] == old(a[..])[..s] + M4(f, old(a[..])[s..s + 4]) + old(a[..])[s + 4..]
  {
    ghost var x := a[..];
    var t0 := f.add(a[s], a[s + 1]);
    var t1 := f.add(a[s + 2], a[s + 3]);
    var t2 := f.add(Double(f, a[s + 1]), t1);
    var t3 := f.add(Double(f, a[s + 3]), t0);
    var t4 := f.add(Double(f, Double(f, t1)), t3);
    var t5 := f.add(Double(f, Double(f, t0)), t2);
    var t6 := f.add(t3, t5);
    var t7 := f.add(t2, t4);
    a[s], a[s + 1], a[s + 2], a[s + 3] := t6, t5, t7, t4;
    assert M4(f, x[s..s + 4]) == [t6, t5, t7, t4];
    assert a[..] == x[..s] + [t6, t5, t7, t4] + x[s + 4..];
  }

  /** `matmul_m4` */
  method MatmulM4<F(!new)>(f: Field<F>, a: array<F>)
    requires a.Length % 4 == 0
    modifies a
    ensures a[..] == M4Blocks(f, old(a[..]))
  {
    hide M4, M4Blocks;
    ghost var x := a[..];
    assert x[..0] == [];
    var i := 0;
    ghost var s := 0;
    var blocks := a.Length / 4;
    while i < blocks
      invariant 0 <= i <= blocks && s == 4 * i && s % 4 == 0
      invariant a[..] == M4Blocks(f, x[..s]) + x[s..]
    {
      ghost var y := a[..];
      M4InPlace(f, a, 4 * i);
      M4BlocksStep(f, x, s, y, a[..]);
      i, s := i + 1, s + 4;
    }
    assert x[..s] == x && x[s..] == [];
  }

  lemma {:induction false} M4BlocksSnoc<F(!new)>(f: Field<F>, x: Vec<F>, block: Vec<F>)
    requires |x| % 4 == 0 && |block| == 4
    ensures M4Blocks(f, x + block) == M4Blocks(f, x) + M4(f, block)
  {
    hide M4;
    var all := x + block;
    assert all[..|all| - 4] == x && all[|all| - 4..] == block;
  }

  /** Transforming one more block extends the transformed prefix. */
  lemma {:induction false} M4BlocksStep<F(!new)>(f: Field<F>, x: Vec<F>, s: nat, y: Vec<F>, z: Vec<F>)
    requires s % 4 == 0 && s + 4 <= |x| && y == M4Blocks(f, x[..s]) + x[s..]
    requires z == y[..s] + M4(f, y[s..s + 4]) + y[s + 4..]
    ensures z == M4Blocks(f, x[..s + 4]) + x[s + 4..]
  {
    hide M4, M4Blocks;
    var done := M4Blocks(f, x[..s]);
    M4BlocksSnoc(f, x[..s], x[s..s + 4]);
    assert x[..s] + x[s..s + 4] == x[..s + 4];
    assert y[..s] == done && y[s..s + 4] == x[s..s + 4] && y[s + 4..] == x[s + 4..];
  }

  /** The array `stored`: the sums down the four columns of blocks. */
  method StoreColumns<F(!new)>(f: Field<F>, a: array<F>) returns (stored: seq<F>)
    requires a.Length % 4 == 0 && a.Length > 0
    ensures |stored| == 4 && forall l: nat :: l < 4 ==> stored[l] == ColumnSum(f, a[..], l, a.Length / 4)
  {
    stored := [];
    var l := 0;
    while l < 4
      invariant 0 <= l <= 4 && |stored| == l
      invariant forall k: nat :: k < l ==> stored[k] == ColumnSum(f, a[..], k, a.Length / 4)
    {
      var sum := a[l];
      var j := 1;
      while j < a.Length / 4
        invariant 1 <= j <= a.Length / 4
        invariant sum == ColumnSum(f, a[..], l, j)
      {
        sum := f.add(sum, a[4 * j + l]);
        j := j + 1;
      }
      stored := stored + [sum];
      l := l + 1;
    }
  }

  /** Adds `stored[i % 4]` to every entry. */
  method AddStored<F(!new)>(f: Field<F>, a: array<F>, stored: seq<F>)
    requires |stored| == 4
    modifies a
    ensures forall i :: 0 <= i < a.Length ==> a[i] == f.add(old(a[i]), stored[i % 4])
  {
    var i := 0;
    while i < a.Length
      invariant 0 <= i <= a.Length
      invariant forall k :: 0 <= k < i ==> a[k] == f.add(old(a[k]), stored[k % 4])
      invariant forall k :: i <= k < a.Length ==> a[k] == old(a[k])
    {
      a[i] := f.add(a[i], stored[i % 4]);
      i := i + 1;
    }
  }

  /** The second half of `matmul_external` for sizes above 4. */
  method AddColumns<F(!new)>(f: Field<F>, a: array<F>)
    requires a.Length % 4 == 0 && a.Length > 0
    modifies a
    ensures a[..] == AddColumnSums(f, old(a[..]))
  {
    ghost var y := a[..];
    var stored := StoreColumns(f, a);
    AddStored(f, a, stored);
    forall i | 0 <= i < a.Length
      ensures a[i] == AddColumnSums(f, y)[i]
    {
      assert stored[i % 4] == ColumnSum(f, y, i % 4, a.Length / 4);
    }
  }

  /** circ(2, 1) and circ(2, 1, 1). */
  method MatmulCirculant<F(!new)>(f: Field<F>, a: array<F>)
    requires IsField(f) && (a.Length == 2 || a.Length == 3)
    modifies a
    ensures a[..] == DiagPlusOnes(f, Ones(f, a.Length), old(a[..]))
  {
    ghost var x := a[..];
    SmallSum(f, x);
    var sum := f.add(a[0], a[1]);
    if a.Length == 3 {
      sum := f.add(sum, a[2]);
    }
    var i := 0;
    while i < a.Length
      invariant 0 <= i <= a.Length
      invariant forall k :: 0 <= k < a.Length ==> a[k] == if k < i then f.add(x[k], sum) else x[k]
    {
      a[i] := f.add(a[i], sum);
      i := i + 1;
    }
    forall k | 0 <= k < a.Length ensures f.mul(x[k], f.one) == x[k] {
      Basic(f, x[k]);
    }
  }

  /** `matmul_external`; the result is false where the code panics. */
  method MatmulExternal<F(!new)>(f: Field<F>, a: array<F>) returns (ok: bool)
    requires IsField(f)
    modifies a
    ensures ok <==> SupportedSize(a.Length)
    ensures ok ==> a[..] == ExternalLayer(f, old(a[..])) == MatVec(f, ExternalMatrix(f, a.Length), old(a[..]))
  {
    if SupportedSize(a.Length) {
      ExternalIsDense(f, a[..]);
    }
    hide ExternalMatrix, MatVec, M4Blocks;
    if a.Length == 2 || a.Length == 3 {
      MatmulCirculant(f, a);
      return true;
    } else if a.Length == 4 {
      MatmulM4(f, a);
      return true;
    } else if SupportedSize(a.Length) {
      MatmulM4(f, a);
      AddColumns(f, a);
      return true;
    }
    return false;
  }

  /** The sums of two and three entries, without the leading zero. */
  lemma {:induction false} SmallSum<F(!new)>(f: Field<F>, x: Vec<F>)
    requires IsField(f) && (|x| == 2 || |x| == 3)
    ensures Sum(f, x) == if |x| == 2 then f.add(x[0], x[1]) else f.add(f.add(x[0], x[1]), x[2])
  {
    Basic(f, x[0]);
    assert Sum(f, x[..1]) == f.add(Sum(f, x[..1][..0]), x[0]);
    assert x[..2][..1] == x[..1];
    assert Sum(f, x[..2]) == f.add(Sum(f, x[..1]), x[1]);
    if |x| == 2 {
      assert x[..2] == x;
    }
  }

  /** The running sum of `matmul_internal`. */
  method SumOf<F(!new)>(f: Field<F>, a: array<F>) returns (sum: F)
    requires IsField(f) && a.Length > 0
    ensures sum == Sum(f, a[..])
  {
    sum := a[0];
    Basic(f, a[0]);
    assert a[..1][..0] == [];
    var i := 1;
    while i < a.Length
      invariant 1 <= i <= a.Length
      invariant sum == Sum(f, a[..i])
    {
      assert a[..i + 1][..i] == a[..i];
      sum := f.add(sum, a[i]);
      i := i + 1;
    }
    assert a[..i] == a[..];
  }

  /** The cases t = 2 and t = 3 of `matmul_internal`, which do not read the diagonal. */
  method MatmulInternalSmall<F(!new)>(f: Field<F>, a: array<F>, ghost diag: Vec<F>)
    requires IsField(f) && |diag| == a.Length && (a.Length == 2 || a.Length == 3)
    modifies a
    ensures a[..] == InternalLayer(f, diag, old(a[..]))
  {
    ghost var x := a[..];
    SmallSum(f, x);
    Basic(f, x[0]);
    Basic(f, x[1]);
    if a.Length == 2 {
      var sum := f.add(a[0], a[1]);
      a[0], a[1] := f.add(a[0], sum), f.add(Double(f, a[1]), sum);
      DoubleIsTimesTwo(f, x[1]);
    } else {
      var sum := f.add(f.add(a[0], a[1]), a[2]);
      a[0], a[1], a[2] := f.add(a[0], sum), f.add(a[1], sum), f.add(Double(f, a[2]), sum);
      DoubleIsTimesTwo(f, x[2]);
    }
    assert a[..] == InternalLayer(f, diag, x);
  }

  /** The other cases of `matmul_internal`: the sum, then each entry times its diagonal entry plus the sum. */
  method MatmulInternalLarge<F(!new)>(f: Field<F>, a: array<F>, diag: Vec<F>)
    requires IsField(f) && |diag| == a.Length > 0
    modifies a
    ensures a[..] == DiagPlusOnes(f, diag, old(a[..]))
  {
    ghost var x := a[..];
    var sum := SumOf(f, a);
    var i := 0;
    while i < a.Length
      invariant 0 <= i <= a.Length
      invariant forall k :: 0 <= k < a.Length ==> a[k] == if k < i then f.add(f.mul(x[k], diag[k]), sum) else x[k]
    {
      a[i] := f.add(f.mul(a[i], diag[i]), sum);
      i := i + 1;
    }
  }

  /** `matmul_internal`; the result is false where the code panics. */
  method MatmulInternal<F(!new)>(f: Field<F>, a: array<F>, diag: Vec<F>) returns (ok: bool)
    requires IsField(f) && |diag| == a.Length
    modifies a
    ensures ok <==> SupportedSize(a.Length)
    ensures ok ==> a[..] == InternalLayer(f, diag, old(a[..])) == MatVec(f, InternalMatrix(f, a.Length, diag), old(a[..]))
  {
    ghost var x := a[..];
    if SupportedSize(a.Length) {
      InternalIsMatrix(f, diag, x);
    }
    hide InternalMatrix, MatVec, DiagPlusOnes, IsField;
    if a.Length == 2 || a.Length == 3 {
      MatmulInternalSmall(f, a, diag);
      return true;
    } else if SupportedSize(a.Length) {
      MatmulInternalLarge(f, a, diag);
      return true;
    }
    return false;
  }

  lemma {:induction false} DoubleIsTimesTwo<F(!new)>(f: Field<F>, x: F)
    requires IsField(f)
    ensures Double(f, x) == f.mul(x, f.add(f.one, f.one))
  {
    Distrib(f, x, f.one, f.one);
    Basic(f, x);
  }

  // ---------- The permutation

  /** `add_rc` and `sbox` on the whole state; false where the S-box panics. */
  method AddConstantsAndSbox<F(!new)>(f: Field<F>, d: nat, a: array<F>, c: Vec<F>) returns (ok: bool)
    requires IsField(f) && |c| >= a.Length > 0
    modifies a
    ensures ok <==> SupportedDegree(d)
    ensures ok ==> a[..] == PowAll(f, AddV(f, old(a[..]), c[..a.Length]), d)
  {
    ghost var x := a[..];
    var i := 0;
    while i < a.Length
      invariant 0 <= i <= a.Length
      invariant i > 0 ==> SupportedDegree(d)
      invariant forall k :: 0 <= k < a.Length ==> a[k] == if k < i then Pow(f, f.add(x[k], c[k]), d) else x[k]
    {
      var y := SboxP(f, d, f.add(a[i], c[i]));
      if y.None? {
        return false;
      }
      SboxIsPower(f, d, f.add(x[i], c[i]));
      a[i] := y.value;
      i := i + 1;
    }
    return true;
  }

  /** A full round in place. */
  method RunFullRound<F(!new)>(f: Field<F>, ghost ls: Layers<F>, p: Params<F>, a: array<F>, c: Vec<F>) returns (ok: bool)
    requires IsField(f) && SupportedSize(p.t) && |p.diag| == p.t && IsCode(f, ls, p) && a.Length == p.t <= |c|
    modifies a
    ensures ok <==> SupportedDegree(p.d)
    ensures ok ==> a[..] == Round(f, ls, old(a[..]), c[..p.t], false)
  {
    hide MatVec, ExternalMatrix, InternalLayer, ExternalLayer, IsField, Pow;
    ghost var y := AddV(f, a[..], c[..p.t]);
    ok := AddConstantsAndSbox(f, p.d, a, c);
    if ok {
      assert MapV(ls.sbox, y) == PowAll(f, y, p.d) by {
        forall i | 0 <= i < |y| ensures ls.sbox(y[i]) == Pow(f, y[i], p.d) {
          assert Law1(y[i]);
        }
      }
      assert Law1(a[..]);
      ok := MatmulExternal(f, a);
    }
  }

  /** A partial round in place. */
  method RunPartialRound<F(!new)>(f: Field<F>, ghost ls: Layers<F>, p: Params<F>, a: array<F>, c: Vec<F>) returns (ok: bool)
    requires IsField(f) && SupportedSize(p.t) && |p.diag| == p.t && IsCode(f, ls, p) && a.Length == p.t && |c| > 0
    modifies a
    ensures ok <==> SupportedDegree(p.d)
    ensures ok ==> a[..] == Round(f, ls, old(a[..]), c[..1], true)
  {
    hide MatVec, InternalMatrix, InternalLayer, ExternalLayer, IsField, Pow, SboxP;
    ghost var x := a[..];
    a[0] := f.add(a[0], c[0]);
    var y := SboxP(f, p.d, a[0]);
    if y.None? {
      return false;
    }
    SboxIsPower(f, p.d, a[0]);
    a[0] := y.value;
    assert Law1(f.add(x[0], c[0]));
    assert a[..] == x[0 := ls.sbox(f.add(x[0], c[0]))];
    assert Law1(a[..]);
    ok := MatmulInternal(f, a, p.diag);
  }

  /** One iteration of the outer loops: the next state of the schedule. */
  method RunFullRoundAt<F(!new)>(f: Field<F>, ghost ls: Layers<F>, p: Params<F>, ghost input: Vec<F>, a: array<F>, round: nat) returns (ok: bool)
    requires IsField(f) && ShapeOk(p) && SupportedSize(p.t) && IsCode(f, ls, p) && KeepSize(ls, p.t) && |input| == p.t == a.Length
    requires round < p.rounds && !IsPartial(p, round) && a[..] == StateAfter(f, ls, p, input, round)
    modifies a
    ensures ok <==> SupportedDegree(p.d)
    ensures ok ==> a[..] == StateAfter(f, ls, p, input, round + 1)
  {
    ok := RunFullRound(f, ls, p, a, p.roundConstants[round]);
  }

  /** The first and the last loop of `permutation`. */
  method RunFullRounds<F(!new)>(f: Field<F>, ghost ls: Layers<F>, p: Params<F>, ghost input: Vec<F>, a: array<F>, from: nat, to: nat) returns (ok: bool)
    requires IsField(f) && ShapeOk(p) && SupportedSize(p.t) && IsCode(f, ls, p) && KeepSize(ls, p.t) && |input| == p.t == a.Length
    requires from <= to <= p.rounds && forall r: nat :: from <= r < to ==> !IsPartial(p, r)
    requires a[..] == StateAfter(f, ls, p, input, from)
    modifies a
    ensures ok <==> from == to || SupportedDegree(p.d)
    ensures ok ==> a[..] == StateAfter(f, ls, p, input, to)
  {
    hide IsCode, KeepSize, Round;
    var round := from;
    while round < to
      invariant from <= round <= to && (round > from ==> SupportedDegree(p.d))
      invariant a[..] == StateAfter(f, ls, p, input, round)
    {
      ok := RunFullRoundAt(f, ls, p, input, a, round);
      if !ok {
        return;
      }
      round := round + 1;
    }
    ok := true;
  }

  /** One iteration of the middle loop: the next state of the schedule. */
  method RunPartialRoundAt<F(!new)>(f: Field<F>, ghost ls: Layers<F>, p: Params<F>, ghost input: Vec<F>, a: array<F>, round: nat) returns (ok: bool)
    requires IsField(f) && ShapeOk(p) && SupportedSize(p.t) && IsCode(f, ls, p) && KeepSize(ls, p.t) && |input| == p.t == a.Length
    requires round < p.rounds && IsPartial(p, round) && a[..] == StateAfter(f, ls, p, input, round)
    modifies a
    ensures ok <==> SupportedDegree(p.d)
    ensures ok ==> a[..] == StateAfter(f, ls, p, input, round + 1)
  {
    ok := RunPartialRound(f, ls, p, a, p.roundConstants[round]);
  }

  /** The middle loop of `permutation`. */
  method RunPartialRounds<F(!new)>(f: Field<F>, ghost ls: Layers<F>, p: Params<F>, ghost input: Vec<F>, a: array<F>) returns (ok: bool)
    requires IsField(f) && ShapeOk(p) && SupportedSize(p.t) && IsCode(f, ls, p) && KeepSize(ls, p.t) && |input| == p.t == a.Length
    requires a[..] == StateAfter(f, ls, p, input, p.roundsFDiv2)
    modifies a
    ensures ok <==> p.roundsP == 0 || SupportedDegree(p.d)
    ensures ok ==> a[..] == StateAfter(f, ls, p, input, p.roundsFDiv2 + p.roundsP)
  {
    hide IsCode, KeepSize, Round;
    var round := p.roundsFDiv2;
    while round < p.roundsFDiv2 + p.roundsP
      invariant p.roundsFDiv2 <= round <= p.roundsFDiv2 + p.roundsP
      invariant round > p.roundsFDiv2 ==> SupportedDegree(p.d)
      invariant a[..] == StateAfter(f, ls, p, input, round)
    {
      ok := RunPartialRoundAt(f, ls, p, input, a, round);
      if !ok {
        return;
      }
      round := round + 1;
    }
    ok := true;
  }

  /** The three loops of `permutation`, after the first layer. */
  method RunRounds<F(!new)>(f: Field<F>, ghost ls: Layers<F>, p: Params<F>, ghost input: Vec<F>, a: array<F>) returns (ok: bool)
    requires IsField(f) && ShapeOk(p) && SupportedSize(p.t) && IsCode(f, ls, p) && KeepSize(ls, p.t) && |input| == p.t == a.Length
    requires a[..] == ls.external(input)
    modifies a
    ensures ok <==> p.rounds == 0 || SupportedDegree(p.d)
    ensures ok ==> a[..] == StateAfter(f, ls, p, input, p.rounds)
  {
    ok := RunFullRounds(f, ls, p, input, a, 0, p.roundsFDiv2);
    if !ok {
      return;
    }
    ok := RunPartialRounds(f, ls, p, input, a);
    if !ok {
      return;
    }
    ok := RunFullRounds(f, ls, p, input, a, p.roundsFDiv2 + p.roundsP, p.rounds);
  }

  /**
   `permutation`. It panics, returning `None`, on an input or a size it does not
   know, and on a degree without an S-box as soon as there is a round to run.
   */
  method Permutation<F(!new)>(f: Field<F>, p: Params<F>, input: Vec<F>) returns (r: Option<Vec<F>>)
    requires IsField(f) && ShapeOk(p)
    ensures r.Some? <==> |input| == p.t && SupportedSize(p.t) && (p.rounds == 0 || SupportedDegree(p.d))
    ensures r.Some? ==> KeepSize(CodeLayers(f, p), p.t) && r.value == StateAfter(f, CodeLayers(f, p), p, input, p.rounds)
    ensures r.Some? && PartialRowsAreZero(f, p) ==>
              r.value == Reference(f, ExternalMatrix(f, p.t), InternalMatrix(f, p.t, p.diag), p.d, p.roundsFDiv2, p.roundsP, p.roundConstants, input)
  {
    if |input| != p.t {
      return None;
    }
    var state := new F[p.t](i requires 0 <= i < |input| => input[i]);
    assert state[..] == input;
    var ok := MatmulExternal(f, state);
    if !ok {
      return None;
    }
    ghost var ls := CodeLayers(f, p);
    CodeLayersAreCode(f, p);
    assert Law1(input);
    ok := RunRounds(f, ls, p, input, state);
    if !ok {
      return None;
    }
    if PartialRowsAreZero(f, p) {
      PermutationIsReference(f, p, input);
    }
    return Some(state[..]);
  }

  /** `new` accepts degree 11, for which no round can run. */
  lemma DegreeElevenHasNoSbox<F>(f: Field<F>, t: nat, roundsF: nat, roundsP: nat, diag: Vec<F>, constants: seq<Vec<F>>, x: F)
    requires roundsF % 2 == 0
    ensures NewParams(t, 11, roundsF, roundsP, diag, constants).Some? && SboxP(f, 11, x).None?
    ensures forall d :: NewParams(t, d, roundsF, roundsP, diag, constants).Some? ==> (SboxP(f, d, x).None? <==> d == 11)
  {
  }
}
