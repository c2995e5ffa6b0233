/** The pool's amount arithmetic: field encoding, fees and integer widths. */
module Amounts {
  import opened Wrappers
  import opened Numbers
  import opened PoolTypes

  /** `MAX_FEE_BPS` */
  const MAX_FEE_BPS: nat := 10_000

  predicate FitsI128(x: int) {
    -TWO_127 <= x < TWO_127
  }

  /** `i256_abs_to_u256`; the host traps on `0 - I256::MIN`. */
  function AbsToU256(x: I256): Option<nat> {
    if x >= 0 then Some(x)
    else if x == -TWO_255 then None
    else Some(-x)
  }

  /** `calculate_public_amount` */
  function PublicAmount(extAmount: I256): (r: Result<nat, ContractError>)
    ensures r.Ok? <==> -TWO_248 < extAmount < TWO_248
    ensures r.Ok? ==> InField(r.value) && (r.value - extAmount) % MODULUS == 0
  {
    match AbsToU256(extAmount)
    case None => Err(Trapped(Arithmetic))
    case Some(abs) =>
      if abs >= TWO_248 then Err(WrongExtAmount)
      else if extAmount >= 0 then Ok(extAmount)
      else Ok(MODULUS - abs)
  }

  /** `i256_to_i128_nonneg` */
  function ToI128NonNegative(x: I256): (r: Result<nat, ContractError>)
    ensures r.Ok? <==> 0 <= x && FitsI128(x)
    ensures r.Ok? ==> r.value == x
  {
    if x < 0 then Err(WrongExtAmount)
    else if !FitsI128(x) then Err(WrongExtAmount)
    else Ok(x)
  }

  /** `calculate_fee_amount`: rounded down, in 128-bit arithmetic. */
  function FeeAmount(amount: nat, feeBps: nat): (r: Result<nat, ContractError>)
    ensures r.Ok? <==> FitsI128(amount * feeBps)
    ensures r.Ok? ==> MAX_FEE_BPS * r.value <= amount * feeBps < MAX_FEE_BPS * (r.value + 1)
    ensures r.Ok? && feeBps <= MAX_FEE_BPS ==> r.value <= amount
  {
    if !FitsI128(amount * feeBps) then Err(ContractError.Overflow)
    else
      assert feeBps <= MAX_FEE_BPS ==> amount * feeBps <= amount * MAX_FEE_BPS;
      Ok(amount * feeBps / MAX_FEE_BPS)
  }

  /** Different external amounts never share a public amount. */
  lemma PublicAmountIsInjective(a: I256, b: I256)
    requires PublicAmount(a).Ok? && PublicAmount(a) == PublicAmount(b)
    ensures a == b
  {
    assert MODULUS > 2 * TWO_248;
  }

  /**
   The circuit's balance equation holds modulo the field size; for notes below
   2^248 and the pool's own encoding of the external amount it holds in the
   integers, and only then.
   */
  lemma BalanceLifts(in0: nat, in1: nat, out0: nat, out1: nat, extAmount: I256)
    requires in0 < TWO_248 && in1 < TWO_248 && out0 < TWO_248 && out1 < TWO_248
    requires PublicAmount(extAmount).Ok?
    ensures (in0 + in1 + PublicAmount(extAmount).value - out0 - out1) % MODULUS == 0
            <==> in0 + in1 + extAmount == out0 + out1
  {
    var gap := in0 + in1 + extAmount - out0 - out1;
    assert MODULUS > 4 * TWO_248;
    if extAmount >= 0 {
      assert in0 + in1 + PublicAmount(extAmount).value - out0 - out1 == gap;
    } else {
      assert in0 + in1 + PublicAmount(extAmount).value - out0 - out1 == gap + MODULUS;
    }
  }
}
