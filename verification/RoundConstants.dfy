/**
 `equivalent_round_constants`: moves the constants of the partial rounds through
 the inverse of the internal matrix, so that after one addition at the start
 each round needs a single constant.
 */
module RoundConstants {
  import opened Wrappers
  import opened Field
  import opened LinearAlgebra
  import opened Elimination

  /** `mat_vec_mul` */
  method MatVecMul<F(!new)>(f: Field<F>, mat: Mat<F>, input: Vec<F>) returns (out: Vec<F>)
    requires forall i :: 0 <= i < |mat| ==> |mat[i]| == |input|
    ensures out == MatVec(f, mat, input)
  {
    out := Zeros(f, |mat|);
    var row := 0;
    while row < |mat|
      invariant 0 <= row <= |mat| == |out|
      invariant forall i :: 0 <= i < row ==> out[i] == Dot(f, mat[i], input)
      invariant forall i :: row <= i < |mat| ==> out[i] == f.zero
    {
      var col := 0;
      while col < |input|
        invariant 0 <= col <= |input| && |out| == |mat|
        invariant forall i :: 0 <= i < row ==> out[i] == Dot(f, mat[i], input)
        invariant forall i :: row < i < |mat| ==> out[i] == f.zero
        invariant out[row] == Dot(f, mat[row][..col], input[..col])
      {
        assert mat[row][..col + 1][..col] == mat[row][..col] && input[..col + 1][..col] == input[..col];
        out := out[row := f.add(out[row], f.mul(mat[row][col], input[col]))];
        col := col + 1;
      }
      assert mat[row][..col] == mat[row] && input[..col] == input;
      row := row + 1;
    }
  }

  // ---------- Partial rounds

  /** The S-box of a partial round acts on entry 0. */
  function SboxFirst<F>(s: F -> F, x: Vec<F>): Vec<F>
    requires |x| > 0
  {
    x[0 := s(x[0])]
  }

  function AddFirst<F>(f: Field<F>, x: Vec<F>, k: F): Vec<F>
    requires |x| > 0
  {
    x[0 := f.add(x[0], k)]
  }

  ghost predicate AllOfLength<F>(cs: seq<Vec<F>>, n: nat) {
    forall i :: 0 <= i < |cs| ==> |cs[i]| == n
  }

  /** Rounds that add a whole vector, apply the S-box and multiply by `m`. */
  ghost function PlainRounds<F(!new)>(f: Field<F>, s: F -> F, m: Mat<F>, cs: seq<Vec<F>>, x: Vec<F>): (r: Vec<F>)
    requires Square(m, |m|) && |m| > 0 && |x| == |m| && AllOfLength(cs, |m|)
    ensures |r| == |m|
    decreases |cs|
  {
    if cs == [] then x
    else PlainRounds(f, s, m, cs[1..], MatVec(f, m, SboxFirst(s, AddV(f, x, cs[0]))))
  }

  /** Rounds that apply the S-box, add one constant to entry 0 and multiply by `m`. */
  ghost function MovedRounds<F(!new)>(f: Field<F>, s: F -> F, m: Mat<F>, ks: seq<F>, x: Vec<F>): (r: Vec<F>)
    requires Square(m, |m|) && |m| > 0 && |x| == |m|
    ensures |r| == |m|
    decreases |ks|
  {
    if ks == [] then x
    else MovedRounds(f, s, m, ks[1..], MatVec(f, m, AddFirst(f, SboxFirst(s, x), ks[0])))
  }

  /** The vector to add first and the constants left over, worked out from the last round back. */
  datatype Moved<F> = Moved(first: Vec<F>, rest: seq<F>)

  /** `c` with every entry but the first of `w` added. */
  function AddTail<F>(f: Field<F>, c: Vec<F>, w: Vec<F>): (r: Vec<F>)
    requires |c| == |w|
    ensures |r| == |c|
  {
    seq(|c|, i requires 0 <= i < |c| && |c| == |w| => if i == 0 then c[0] else f.add(c[i], w[i]))
  }

  function MoveBack<F>(f: Field<F>, inv: Mat<F>, cs: seq<Vec<F>>): (r: Moved<F>)
    requires Square(inv, |inv|) && |inv| > 0 && cs != [] && forall i :: 0 <= i < |cs| ==> |cs[i]| == |inv|
    ensures |r.first| == |inv| && |r.rest| == |cs|
    decreases |cs|
  {
    if |cs| == 1 then Moved(cs[0], [f.zero])
    else
      var later := MoveBack(f, inv, cs[1..]);
      var w := MatVec(f, inv, later.first);
      Moved(AddTail(f, cs[0], w), [w[0]] + later.rest)
  }

  lemma {:induction false} MatVecAdd<F(!new)>(f: Field<F>, m: Mat<F>, x: Vec<F>, y: Vec<F>)
    requires IsField(f) && |x| == |y| && forall i :: 0 <= i < |m| ==> |m[i]| == |x|
    ensures MatVec(f, m, AddV(f, x, y)) == AddV(f, MatVec(f, m, x), MatVec(f, m, y))
  {
    forall i | 0 <= i < |m|
      ensures Dot(f, m[i], AddV(f, x, y)) == f.add(Dot(f, m[i], x), Dot(f, m[i], y))
    {
      DotAddRight(f, m[i], x, y);
    }
  }

  /** One round: a constant after the multiplication is its preimage before it, split around the S-box. */
  lemma {:induction false} MoveThroughRound<F(!new)>(f: Field<F>, s: F -> F, m: Mat<F>, inv: Mat<F>, x: Vec<F>, c: Vec<F>, later: Vec<F>)
    requires IsField(f) && Square(m, |m|) && Square(inv, |m|) && |m| > 0 && Inverses(f, inv, m, |m|)
    requires |x| == |c| == |later| == |m|
    ensures var w := MatVec(f, inv, later);
            AddV(f, MatVec(f, m, SboxFirst(s, AddV(f, x, c))), later)
            == MatVec(f, m, AddFirst(f, SboxFirst(s, AddV(f, x, AddTail(f, c, w))), w[0]))
  {
    var w := MatVec(f, inv, later);
    var u := SboxFirst(s, AddV(f, x, c));
    var v := AddFirst(f, SboxFirst(s, AddV(f, x, AddTail(f, c, w))), w[0]);
    assert MatVec(f, m, w) == later by {
      assert Law1(later);
    }
    assert AddV(f, u, w) == v by {
      forall i | 0 <= i < |m|
        ensures AddV(f, u, w)[i] == v[i]
      {
        AddAssoc(f, x[i], c[i], w[i]);
      }
    }
    MatVecAdd(f, m, u, w);
  }

  /** The moved constants compute the same rounds, for every S-box and every state. */
  lemma {:induction false} MovedConstantsPreserveMeaning<F(!new)>(f: Field<F>, s: F -> F, m: Mat<F>, inv: Mat<F>, cs: seq<Vec<F>>, x: Vec<F>)
    requires IsField(f) && Square(m, |m|) && Square(inv, |m|) && |m| > 0 && Inverses(f, inv, m, |m|)
    requires cs != [] && AllOfLength(cs, |m|) && |x| == |m|
    ensures var moved := MoveBack(f, inv, cs);
            PlainRounds(f, s, m, cs, x) == MovedRounds(f, s, m, moved.rest, AddV(f, x, moved.first))
    decreases |cs|
  {
    var moved := MoveBack(f, inv, cs);
    var u := SboxFirst(s, AddV(f, x, cs[0]));
    var next := MatVec(f, m, u);
    if |cs| == 1 {
      Basic(f, u[0]);
      assert AddFirst(f, u, f.zero) == u;
      assert moved.rest[1..] == [];
    } else {
      var later := MoveBack(f, inv, cs[1..]);
      MovedConstantsPreserveMeaning(f, s, m, inv, cs[1..], next);
      MoveThroughRound(f, s, m, inv, x, cs[0], later.first);
      assert moved.rest[1..] == later.rest;
    }
  }

  // ---------- The method

  /** The inner loop: adds entries 1 and up. */
  method AddTailOf<F(!new)>(f: Field<F>, c: Vec<F>, w: Vec<F>) returns (tmp: Vec<F>)
    requires |c| == |w| > 0
    ensures tmp == AddTail(f, c, w)
  {
    tmp := c;
    var i := 1;
    while i < |w|
      invariant 1 <= i <= |w| && |tmp| == |c|
      invariant forall k :: 0 <= k < |c| ==> tmp[k] == if 1 <= k < i then f.add(c[k], w[k]) else c[k]
    {
      tmp := tmp[i := f.add(tmp[i], w[i])];
      i := i + 1;
    }
  }

  /** Entry 0 of each row; a missing one counts as zero. */
  function FirstEntries<F>(f: Field<F>, rows: seq<Vec<F>>): (r: seq<F>)
    ensures |r| == |rows|
  {
    seq(|rows|, i requires 0 <= i < |rows| => if |rows[i]| > 0 then rows[i][0] else f.zero)
  }

  /** The descending loop, given the inverse matrix. */
  method MoveConstants<F(!new)>(f: Field<F>, constants: seq<Vec<F>>, inv: Mat<F>, begin: nat, rounds: nat)
    returns (opt: seq<Vec<F>>)
    requires Square(inv, |inv|) && |inv| > 0 && rounds >= 1 && begin + rounds <= |constants|
    requires AllOfLength(constants[begin..begin + rounds], |inv|)
    ensures |opt| == rounds + 1 && |opt[0]| == |inv|
    ensures MoveBack(f, inv, constants[begin..begin + rounds]) == Moved(opt[0], FirstEntries(f, opt[1..]))
  {
    hide Filled;
    ghost var cs := constants[begin..begin + rounds];
    opt := seq(rounds + 1, _ => []);
    var tmp := constants[begin + rounds - 1];
    var i := rounds - 1;
    assert tmp == cs[i] && cs[i..] == [tmp];
    ghost var rest := [f.zero];
    FilledStart(f, opt);
    while i > 0
      invariant 0 <= i < rounds && |opt| == rounds + 1 && |tmp| == |inv|
      invariant MoveBack(f, inv, cs[i..]) == Moved(tmp, rest)
      invariant Filled(f, opt, rest, i)
    {
      i := i - 1;
      var invCip := MatVecMul(f, inv, tmp);
      FilledStep(f, opt, rest, i, invCip[0]);
      opt := opt[i + 1 := [invCip[0]]];
      rest := [invCip[0]] + rest;
      assert cs[i] == constants[begin + i] && cs[i..][1..] == cs[i + 1..];
      tmp := AddTailOf(f, constants[begin + i], invCip);
    }
    assert cs[0..] == cs;
    FilledRows(f, opt, rest, tmp);
    opt := opt[0 := tmp];
    opt := opt[rounds := Zeros(f, |opt[0]|)];
  }

  /** The rows after `i` hold `rest`, except for the last, which is to be zero. */
  ghost predicate Filled<F(!new)>(f: Field<F>, opt: seq<Vec<F>>, rest: seq<F>, i: nat) {
    && |opt| == i + |rest| + 1 && |rest| > 0 && rest[|rest| - 1] == f.zero
    && forall k :: 0 <= k < |rest| - 1 ==> opt[i + 1 + k] == [rest[k]]
  }

  lemma {:induction false} FilledStart<F(!new)>(f: Field<F>, opt: seq<Vec<F>>)
    requires |opt| >= 2
    ensures Filled(f, opt, [f.zero], |opt| - 2)
  {
  }

  lemma {:induction false} FilledRows<F(!new)>(f: Field<F>, opt: seq<Vec<F>>, rest: seq<F>, first: Vec<F>)
    requires Filled(f, opt, rest, 0) && |first| > 0
    ensures FirstEntries(f, opt[0 := first][|opt| - 1 := Zeros(f, |first|)][1..]) == rest
  {
  }

  lemma {:induction false} FilledStep<F(!new)>(f: Field<F>, opt: seq<Vec<F>>, rest: seq<F>, i: nat, w: F)
    requires Filled(f, opt, rest, i + 1)
    ensures Filled(f, opt[i + 1 := [w]], [w] + rest, i)
  {
    var opt', rest' := opt[i + 1 := [w]], [w] + rest;
    forall k | 0 <= k < |rest'| - 1
      ensures opt'[i + 1 + k] == [rest'[k]]
    {
      if k > 0 {
        assert opt[i + 2 + (k - 1)] == [rest[k - 1]];
      }
    }
  }

  /** Adding `opt[0]` and then one constant a round is adding every row of `cs`, for all S-boxes and states. */
  ghost predicate SameRounds<F(!new)>(f: Field<F>, m: Mat<F>, cs: seq<Vec<F>>, opt: seq<Vec<F>>)
    requires Square(m, |m|) && |m| > 0 && AllOfLength(cs, |m|) && |opt| > 0 && |opt[0]| == |m|
  {
    forall s: F -> F, x: Vec<F> {:trigger PlainRounds(f, s, m, cs, x)} :: |x| == |m| ==>
      PlainRounds(f, s, m, cs, x) == MovedRounds(f, s, m, FirstEntries(f, opt[1..]), AddV(f, x, opt[0]))
  }

  /** `equivalent_round_constants`; `None` is the panic of the matrix inversion. */
  method EquivalentRoundConstants<F(!new, ==)>(f: Field<F>, constants: seq<Vec<F>>, mat: Mat<F>, begin: nat, rounds: nat, debug: bool)
    returns (r: Option<seq<Vec<F>>>)
    requires IsField(f) && Square(mat, |mat|) && |mat| > 0
    requires rounds >= 1 && begin + rounds <= |constants|
    requires AllOfLength(constants[begin..begin + rounds], |mat|)
    ensures r.Some? <==> LeadingBlocksRegular(f, mat)
    ensures r.Some? ==> |r.value| == rounds + 1 && |r.value[0]| == |mat|
    ensures r.Some? ==> SameRounds(f, mat, constants[begin..begin + rounds], r.value)
  {
    var inverse := MatInverse(f, mat, debug);
    if inverse.None? {
      return None;
    }
    var opt := MoveConstants(f, constants, inverse.value, begin, rounds);
    MovedIsSame(f, mat, inverse.value, constants[begin..begin + rounds], opt);
    return Some(opt);
  }

  lemma {:induction false} MovedIsSame<F(!new)>(f: Field<F>, m: Mat<F>, inv: Mat<F>, cs: seq<Vec<F>>, opt: seq<Vec<F>>)
    requires IsField(f) && Square(m, |m|) && Square(inv, |m|) && |m| > 0 && Inverses(f, inv, m, |m|)
    requires cs != [] && AllOfLength(cs, |m|) && |opt| > 0 && |opt[0]| == |m|
    requires MoveBack(f, inv, cs) == Moved(opt[0], FirstEntries(f, opt[1..]))
    ensures SameRounds(f, m, cs, opt)
  {
    forall s: F -> F, x: Vec<F> | |x| == |m|
      ensures PlainRounds(f, s, m, cs, x) == MovedRounds(f, s, m, FirstEntries(f, opt[1..]), AddV(f, x, opt[0]))
    {
      MovedConstantsPreserveMeaning(f, s, m, inv, cs, x);
    }
  }
}
