/** Money over runs: balances, fees and the point after which a call cannot fail. */
module PoolMoney {
  import opened Wrappers
  import opened PoolTypes
  import opened Amounts
  import opened Settlement
  import opened PoolRuns

  function PoolBalance(cfg: Config, s: State): nat {
    BalanceOf(s.balances, cfg.self)
  }

  /** The pool signs for nobody: it is never the authorized sender of a call to itself. */
  predicate NotSelfSent(cfg: Config, step: Step) {
    !step.OutsideStep? && step.call.authorized ==> step.call.sender != cfg.self
  }

  /** The payouts of this step go to others. */
  predicate PaysOthers(cfg: Config, step: Step) {
    !step.OutsideStep? && step.call.ext.extAmount < 0 ==>
      step.call.ext.recipient != cfg.self && cfg.feeRecipient != cfg.self
  }

  // ---------- One settlement

  lemma PayoutSplitsTheAmount(cfg: Config, ext: ExtData)
    requires cfg.feeBps <= MAX_FEE_BPS && PlanPayout(cfg, ext).Ok?
    ensures ext.extAmount >= 0 ==> PlanPayout(cfg, ext).value.None?
    ensures ext.extAmount < 0 ==>
              && PlanPayout(cfg, ext).value.Some?
              && var pay := PlanPayout(cfg, ext).value.value;
                 && pay.recipientAmount + pay.fee == -ext.extAmount
                 && FeeAmount(-ext.extAmount, cfg.feeBps) == Ok(pay.fee)
                 && FitsI128(ext.extAmount)
  {
  }

  /** Both payouts leave the pool, or come back to it when it pays itself. */
  lemma FinishBalance(cfg: Config, c: Committed, p: Proof, ext: ExtData)
    requires cfg.feeBps <= MAX_FEE_BPS && PlanPayout(cfg, ext) == Ok(c.payout)
    requires Finish(cfg, c, p, ext).Ok?
    ensures var paid := if ext.extAmount < 0 then -ext.extAmount else 0;
            var before, after := PoolBalance(cfg, c.state), PoolBalance(cfg, Finish(cfg, c, p, ext).value);
            && before - paid <= after <= before
            && (paid > 0 && ext.recipient != cfg.self && cfg.feeRecipient != cfg.self ==> after == before - paid)
            && (paid == 0 ==> after == before)
  {
    PayoutSplitsTheAmount(cfg, ext);
  }

  /** A covered payout always completes: after the first transfer nothing can fail any more. */
  lemma CoveredPayoutCompletes(cfg: Config, c: Committed, p: Proof, ext: ExtData)
    requires cfg.feeBps <= MAX_FEE_BPS && PlanPayout(cfg, ext) == Ok(c.payout) && FitsI128(ext.extAmount)
    ensures Finish(cfg, c, p, ext).Err? ==> Finish(cfg, c, p, ext).error == Trapped(TokenRefused)
    ensures PoolBalance(cfg, c.state) + ext.extAmount >= 0 ==> Finish(cfg, c, p, ext).Ok?
    ensures ext.extAmount < 0 && ext.recipient != cfg.self ==>
              (Finish(cfg, c, p, ext).Ok? <==> PoolBalance(cfg, c.state) + ext.extAmount >= 0)
  {
    PayoutSplitsTheAmount(cfg, ext);
  }

  lemma AmountFitsAtPayout(cfg: Config, s: State, call: Call)
    requires cfg.feeBps <= MAX_FEE_BPS && PlanPayout(cfg, call.ext).Ok?
    requires call.ext.extAmount <= 0 || TakeDeposit(cfg, s, call).Ok?
    ensures FitsI128(call.ext.extAmount)
  {
    if call.ext.extAmount < 0 {
      PayoutSplitsTheAmount(cfg, call.ext);
    }
  }

  /**
   Once the pool's writes are committed, a call fails only if the token refuses
   a transfer, and never when the pool holds what it is to pay.
   */
  lemma NoLateFailure(host: Host, cfg: Config, s: State, call: Call, insertOutputs: bool)
    requires cfg.feeBps <= MAX_FEE_BPS
    requires if insertOutputs then TakeDeposit(cfg, s, call).Ok? else CheckExit(s, call).Ok?
    requires var s1 := if insertOutputs then TakeDeposit(cfg, s, call).value else s;
             && CheckStatement(host, s1, call.proof, call.ext).Ok?
             && CheckAllowlist(call.proof, call.answers.aspRoot).Ok?
             && CheckProof(call.proof, call.answers.verify).Ok?
             && Commit(cfg, s1, call.proof, call.ext, insertOutputs).Ok?
    ensures var s1 := if insertOutputs then TakeDeposit(cfg, s, call).value else s;
            var r := Settle(host, cfg, s1, call, insertOutputs);
            && (r.Err? ==> r.error == Trapped(TokenRefused))
            && (PoolBalance(cfg, s1) + call.ext.extAmount >= 0 ==> r.Ok?)
  {
    var s1 := if insertOutputs then TakeDeposit(cfg, s, call).value else s;
    var c := Commit(cfg, s1, call.proof, call.ext, insertOutputs).value;
    AmountFitsAtPayout(cfg, s, call);
    CoveredPayoutCompletes(cfg, c, call.proof, call.ext);
  }

  /** Errors the code can name but no call ever gets. */
  predicate NeverReturned(e: ContractError) {
    || e == NextIndexNotEven || e == NotInitialized || e == ContractError.WrongLevels || e == AlreadyInitialized
    || e == InvalidFee || e == DepositClosed || e == Trapped(HashInput)
  }

  /**
   No step ever meets an index, initialization or hash-range error, and the only
   arithmetic overflow is the fee multiplication's.
   */
  lemma DeadErrors(host: Host, cfg: Config, s: State, step: Step)
    requires cfg.feeBps <= MAX_FEE_BPS && Execute(host, cfg, s, step).Err?
    ensures var e := Execute(host, cfg, s, step).error;
            && !NeverReturned(e)
            && (e == ContractError.Overflow ==>
                  !step.OutsideStep? && step.call.ext.extAmount < 0 && !FitsI128(-step.call.ext.extAmount * cfg.feeBps))
  {
    match step
    case TransactStep(call) =>
      if call.authorized && TakeDeposit(cfg, s, call).Ok? {
        SettleErrors(host, cfg, TakeDeposit(cfg, s, call).value, call, true);
      }
    case ExitStep(call) =>
      if CheckExit(s, call).Ok? {
        SettleErrors(host, cfg, s, call, false);
      }
    case OutsideStep(_, _, _) =>
  }

  lemma SettleErrors(host: Host, cfg: Config, s: State, call: Call, insertOutputs: bool)
    requires cfg.feeBps <= MAX_FEE_BPS && Settle(host, cfg, s, call, insertOutputs).Err?
    ensures var e := Settle(host, cfg, s, call, insertOutputs).error;
            && !NeverReturned(e)
            && (e == ContractError.Overflow ==> call.ext.extAmount < 0 && !FitsI128(-call.ext.extAmount * cfg.feeBps))
  {
    hide Commit;
    if CheckStatement(host, s, call.proof, call.ext).Ok? && CheckAllowlist(call.proof, call.answers.aspRoot).Ok?
       && CheckProof(call.proof, call.answers.verify).Ok? {
      if Commit(cfg, s, call.proof, call.ext, insertOutputs).Err? {
        CommitErrors(cfg, s, call.proof, call.ext, insertOutputs);
      }
    }
  }

  lemma CommitErrors(cfg: Config, s: State, p: Proof, ext: ExtData, insertOutputs: bool)
    requires cfg.feeBps <= MAX_FEE_BPS && Commit(cfg, s, p, ext, insertOutputs).Err?
    ensures var e := Commit(cfg, s, p, ext, insertOutputs).error;
            && !NeverReturned(e)
            && (e == ContractError.Overflow ==> ext.extAmount < 0 && !FitsI128(-ext.extAmount * cfg.feeBps))
  {
  }

  // ---------- Balances over runs

  /** What a step moves into the pool, when it is accepted. */
  function Flow(cfg: Config, step: Step): int {
    match step
    case TransactStep(call) => call.ext.extAmount
    case ExitStep(call) => call.ext.extAmount
    case OutsideStep(_, to, amount) => if to == cfg.self then amount else 0
  }

  lemma SettleBalance(host: Host, cfg: Config, s: State, call: Call, insertOutputs: bool)
    requires cfg.feeBps <= MAX_FEE_BPS && Settle(host, cfg, s, call, insertOutputs).Ok?
    ensures var paid := if call.ext.extAmount < 0 then -call.ext.extAmount else 0;
            var before, after := PoolBalance(cfg, s), PoolBalance(cfg, Settle(host, cfg, s, call, insertOutputs).value);
            && before - paid <= after
            && (paid > 0 && call.ext.recipient != cfg.self && cfg.feeRecipient != cfg.self ==> after == before - paid)
            && (paid == 0 ==> after == before)
  {
    var c := Commit(cfg, s, call.proof, call.ext, insertOutputs).value;
    FinishBalance(cfg, c, call.proof, call.ext);
  }

  /** A step changes the pool's balance by its flow; paying itself only leaves more. */
  lemma StepBalance(host: Host, cfg: Config, s: State, step: Step)
    requires cfg.feeBps <= MAX_FEE_BPS && NotSelfSent(cfg, step) && Execute(host, cfg, s, step).Ok?
    ensures var before, after := PoolBalance(cfg, s), PoolBalance(cfg, Next(host, cfg, s, step));
            && before + Flow(cfg, step) <= after
            && (PaysOthers(cfg, step) ==> after == before + Flow(cfg, step))
  {
    match step
    case TransactStep(call) => SettleBalance(host, cfg, TakeDeposit(cfg, s, call).value, call, true);
    case ExitStep(call) => SettleBalance(host, cfg, s, call, false);
    case OutsideStep(_, _, _) =>
  }

  ghost function TotalFlow(host: Host, cfg: Config, start: State, steps: seq<Step>): int {
    if steps == [] then 0
    else
      var n := |steps| - 1;
      TotalFlow(host, cfg, start, steps[..n]) + if Accepted(host, cfg, start, steps, n) then Flow(cfg, steps[n]) else 0
  }

  /** The pool's balance is what its accepted steps moved in and out, no more and no less. */
  lemma {:induction false} BalanceIsTotalFlow(host: Host, cfg: Config, start: State, steps: seq<Step>)
    requires cfg.feeBps <= MAX_FEE_BPS
    requires forall i :: 0 <= i < |steps| ==> NotSelfSent(cfg, steps[i]) && PaysOthers(cfg, steps[i])
    ensures PoolBalance(cfg, After(host, cfg, start, steps))
            == PoolBalance(cfg, start) + TotalFlow(host, cfg, start, steps)
  {
    if steps != [] {
      var n := |steps| - 1;
      BalanceIsTotalFlow(host, cfg, start, steps[..n]);
      if Accepted(host, cfg, start, steps, n) {
        StepBalance(host, cfg, After(host, cfg, start, steps[..n]), steps[n]);
      }
    }
  }

  // ---------- Fees over runs

  /** The gross amounts of the accepted withdrawals, in order. */
  ghost function Withdrawals(host: Host, cfg: Config, start: State, steps: seq<Step>): seq<nat> {
    if steps == [] then []
    else
      var n := |steps| - 1;
      Withdrawals(host, cfg, start, steps[..n]) +
      if !steps[n].OutsideStep? && Accepted(host, cfg, start, steps, n) && steps[n].call.ext.extAmount < 0
      then [-steps[n].call.ext.extAmount] else []
  }

  function Sum(amounts: seq<nat>): nat {
    if amounts == [] then 0 else Sum(amounts[..|amounts| - 1]) + amounts[|amounts| - 1]
  }

  predicate Chargeable(bps: nat, amounts: seq<nat>) {
    forall i :: 0 <= i < |amounts| ==> FeeAmount(amounts[i], bps).Ok?
  }

  /** The fees kept from these amounts. */
  function Fees(bps: nat, amounts: seq<nat>): nat
    requires Chargeable(bps, amounts)
  {
    if amounts == [] then 0
    else
      var n := |amounts| - 1;
      Fees(bps, amounts[..n]) + FeeAmount(amounts[n], bps).value
  }

  lemma {:induction false} FeesRoundDown(bps: nat, amounts: seq<nat>)
    requires bps <= MAX_FEE_BPS && Chargeable(bps, amounts)
    ensures Fees(bps, amounts) <= Sum(amounts)
    ensures 0 <= bps * Sum(amounts) - MAX_FEE_BPS * Fees(bps, amounts) <= (MAX_FEE_BPS - 1) * |amounts|
  {
    if amounts != [] {
      var n := |amounts| - 1;
      FeesRoundDown(bps, amounts[..n]);
      assert bps * Sum(amounts) == bps * Sum(amounts[..n]) + amounts[n] * bps;
    }
  }

  lemma ChargeableSnoc(bps: nat, amounts: seq<nat>, amount: nat)
    requires Chargeable(bps, amounts) && FeeAmount(amount, bps).Ok?
    ensures Chargeable(bps, amounts + [amount])
  {
  }

  lemma AcceptedWithdrawalHasFee(host: Host, cfg: Config, s: State, step: Step)
    requires Execute(host, cfg, s, step).Ok?
    requires !step.OutsideStep? && step.call.ext.extAmount < 0
    ensures FeeAmount(-step.call.ext.extAmount, cfg.feeBps).Ok?
  {
    if step.TransactStep? {
      TransactEffect(host, cfg, s, step.call);
    } else {
      ExitEffect(host, cfg, s, step.call);
    }
  }

  lemma {:induction false} WithdrawalsAreChargeable(host: Host, cfg: Config, start: State, steps: seq<Step>)
    ensures Chargeable(cfg.feeBps, Withdrawals(host, cfg, start, steps))
  {
    hide Execute, After, FeeAmount;
    if steps != [] {
      var n := |steps| - 1;
      WithdrawalsAreChargeable(host, cfg, start, steps[..n]);
      if !steps[n].OutsideStep? && Accepted(host, cfg, start, steps, n) && steps[n].call.ext.extAmount < 0 {
        AcceptedWithdrawalHasFee(host, cfg, After(host, cfg, start, steps[..n]), steps[n]);
        var extAmount: int := steps[n].call.ext.extAmount;
        ChargeableSnoc(cfg.feeBps, Withdrawals(host, cfg, start, steps[..n]), -extAmount);
      } else {
        assert Withdrawals(host, cfg, start, steps) == Withdrawals(host, cfg, start, steps[..n]);
      }
    }
  }

  // ---------- Fees paid

  /** The protocol fee a step pays when it is accepted. */
  function FeeOf(cfg: Config, step: Step): nat {
    if step.OutsideStep? then 0
    else match PlanPayout(cfg, step.call.ext)
      case Ok(Some(payout)) => payout.fee
      case _ => 0
  }

  /** What the accepted steps of a run paid in protocol fees. */
  ghost function FeesPaid(host: Host, cfg: Config, start: State, steps: seq<Step>): nat {
    if steps == [] then 0
    else
      var n := |steps| - 1;
      FeesPaid(host, cfg, start, steps[..n]) + if Accepted(host, cfg, start, steps, n) then FeeOf(cfg, steps[n]) else 0
  }

  lemma FeeOfAccepted(host: Host, cfg: Config, s: State, step: Step)
    requires cfg.feeBps <= MAX_FEE_BPS && Execute(host, cfg, s, step).Ok?
    ensures if !step.OutsideStep? && step.call.ext.extAmount < 0
            then FeeAmount(-step.call.ext.extAmount, cfg.feeBps) == Ok(FeeOf(cfg, step))
            else FeeOf(cfg, step) == 0
  {
    hide Settle;
    match step
    case TransactStep(call) =>
      TransactEffect(host, cfg, s, call);
      PayoutSplitsTheAmount(cfg, call.ext);
    case ExitStep(call) =>
      ExitEffect(host, cfg, s, call);
      PayoutSplitsTheAmount(cfg, call.ext);
    case OutsideStep(_, _, _) =>
  }

  lemma FeesSnoc(bps: nat, amounts: seq<nat>, amount: nat)
    requires Chargeable(bps, amounts + [amount])
    ensures Chargeable(bps, amounts) && FeeAmount(amount, bps).Ok?
    ensures Fees(bps, amounts + [amount]) == Fees(bps, amounts) + FeeAmount(amount, bps).value
  {
    var all := amounts + [amount];
    assert all[|amounts|] == amount && all[..|amounts|] == amounts;
    forall i | 0 <= i < |amounts|
      ensures FeeAmount(amounts[i], bps).Ok?
    {
      assert all[i] == amounts[i];
    }
  }

  /** The fees paid over a run are the rounded shares of its withdrawals. */
  lemma {:induction false} FeesPaidAreTheShares(host: Host, cfg: Config, start: State, steps: seq<Step>)
    requires cfg.feeBps <= MAX_FEE_BPS
    ensures var w := Withdrawals(host, cfg, start, steps);
            Chargeable(cfg.feeBps, w) && FeesPaid(host, cfg, start, steps) == Fees(cfg.feeBps, w)
  {
    hide Execute, After, FeeAmount, PlanPayout, FeeOf;
    WithdrawalsAreChargeable(host, cfg, start, steps);
    if steps != [] {
      var n := |steps| - 1;
      FeesPaidAreTheShares(host, cfg, start, steps[..n]);
      var before := Withdrawals(host, cfg, start, steps[..n]);
      if Accepted(host, cfg, start, steps, n) {
        FeeOfAccepted(host, cfg, After(host, cfg, start, steps[..n]), steps[n]);
      }
      if !steps[n].OutsideStep? && Accepted(host, cfg, start, steps, n) && steps[n].call.ext.extAmount < 0 {
        var extAmount: int := steps[n].call.ext.extAmount;
        FeesSnoc(cfg.feeBps, before, -extAmount);
      } else {
        assert Withdrawals(host, cfg, start, steps) == before;
      }
    }
  }

  /** The fee recipient takes part in this step in no other way. */
  predicate FeeRecipientAside(cfg: Config, step: Step) {
    cfg.feeRecipient != cfg.self &&
    match step
    case TransactStep(call) => call.sender != cfg.feeRecipient && call.ext.recipient != cfg.feeRecipient
    case ExitStep(call) => call.ext.recipient != cfg.feeRecipient
    case OutsideStep(from, to, _) => from != cfg.feeRecipient && to != cfg.feeRecipient
  }

  /** A settlement pays the fee recipient the planned fee and nothing else. */
  lemma SettlePaysTheFee(host: Host, cfg: Config, s: State, call: Call, insertOutputs: bool)
    requires Settle(host, cfg, s, call, insertOutputs).Ok?
    requires cfg.feeRecipient != cfg.self && call.ext.recipient != cfg.feeRecipient
    ensures PlanPayout(cfg, call.ext).Ok?
    ensures BalanceOf(Settle(host, cfg, s, call, insertOutputs).value.balances, cfg.feeRecipient)
            == BalanceOf(s.balances, cfg.feeRecipient)
               + match PlanPayout(cfg, call.ext).value case None => 0 case Some(payout) => payout.fee
  {
    hide CheckStatement, CheckProof;
    var c := Commit(cfg, s, call.proof, call.ext, insertOutputs).value;
    assert c.state.balances == s.balances && PlanPayout(cfg, call.ext) == Ok(c.payout);
  }

  lemma StepPaysTheFee(host: Host, cfg: Config, s: State, step: Step)
    requires FeeRecipientAside(cfg, step) && Execute(host, cfg, s, step).Ok?
    ensures BalanceOf(Next(host, cfg, s, step).balances, cfg.feeRecipient)
            == BalanceOf(s.balances, cfg.feeRecipient) + FeeOf(cfg, step)
  {
    hide Settle, PlanPayout;
    match step
    case TransactStep(call) => SettlePaysTheFee(host, cfg, TakeDeposit(cfg, s, call).value, call, true);
    case ExitStep(call) => SettlePaysTheFee(host, cfg, s, call, false);
    case OutsideStep(_, _, _) =>
  }

  /** The fee recipient's balance grows by exactly the fees paid. */
  lemma {:induction false} FeeRecipientIsPaid(host: Host, cfg: Config, start: State, steps: seq<Step>)
    requires forall i :: 0 <= i < |steps| ==> FeeRecipientAside(cfg, steps[i])
    ensures BalanceOf(After(host, cfg, start, steps).balances, cfg.feeRecipient)
            == BalanceOf(start.balances, cfg.feeRecipient) + FeesPaid(host, cfg, start, steps)
  {
    hide Execute, FeeOf;
    if steps != [] {
      var n := |steps| - 1;
      FeeRecipientIsPaid(host, cfg, start, steps[..n]);
      if Accepted(host, cfg, start, steps, n) {
        StepPaysTheFee(host, cfg, After(host, cfg, start, steps[..n]), steps[n]);
      }
    }
  }

  /**
   Over every run with k withdrawals totalling W, the fees F that were paid are
   rounded down from the protocol's share, by less than one unit a withdrawal.
   */
  lemma FeesOverRuns(host: Host, cfg: Config, start: State, steps: seq<Step>, w: seq<nat>)
    requires cfg.feeBps <= 10_000 && w == Withdrawals(host, cfg, start, steps)
    ensures 0 <= cfg.feeBps * Sum(w) - 10_000 * FeesPaid(host, cfg, start, steps) <= 9_999 * |w|
  {
    FeesPaidAreTheShares(host, cfg, start, steps);
    FeesRoundDown(cfg.feeBps, w);
  }
}
