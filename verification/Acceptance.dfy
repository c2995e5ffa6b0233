/**
 When the pool accepts a call, which error it gives otherwise, and what an
 accepted call moves, told from the call and the state alone.
 */
module Acceptance {
  import opened Wrappers
  import opened Numbers
  import opened PoolTypes
  import opened Amounts
  import opened VerifierBoundary
  import opened Settlement
  import opened PoolRuns
  import opened PoolMoney

  // ---------- The conditions

  /** Every public value of the proof is below the field size. */
  predicate InRange(p: Proof) {
    forall x :: x in [p.root, p.publicAmount, p.outputCommitment0, p.outputCommitment1, p.aspMembershipRoot] + p.inputNullifiers ==>
      x < MODULUS
  }

  /** The nullifiers are new to the pool and to each other. */
  predicate NewNullifiers(s: State, ns: seq<nat>) {
    && (forall i, j :: 0 <= i < j < |ns| ==> ns[i] != ns[j])
    && (forall n :: n in ns ==> n !in s.nullifiers)
  }

  /** The outputs are new to the tree and to each other. */
  predicate NewOutputs(s: State, p: Proof) {
    p.outputCommitment0 != p.outputCommitment1 && p.outputCommitment0 !in s.leaves && p.outputCommitment1 !in s.leaves
  }

  function Magnitude(x: int): nat {
    if x < 0 then -x else x
  }

  /** What the pool must hold to pay out `amount`, of which the fee goes to another address. */
  function Needed(cfg: Config, recipient: Address, amount: nat): nat {
    var fee := amount * cfg.feeBps / 10_000;
    if recipient != cfg.self then amount
    else if amount - fee < fee then fee else Magnitude(amount - fee)
  }

  // ---------- Refusals

  /** What `settle` finds wrong before it writes anything, in the order in which it looks. */
  ghost function CheckRefusal(host: Host, s: State, call: Call): Option<ContractError> {
    var p, ext := call.proof, call.ext;
    var verdict := call.answers.verify(p.proof, PublicInputs(p));
    if !InRange(p) then Some(InvalidFieldElement)
    else if !KnownRoot(host, s, p.root) then Some(UnknownRoot)
    else if !NewNullifiers(s, p.inputNullifiers) then Some(AlreadySpentNullifier)
    else if host.hashExtData(ext) != p.extDataHash then Some(WrongExtHash)
    else if ext.extAmount == -TWO_255 then Some(Trapped(Arithmetic))
    else if Magnitude(ext.extAmount) >= TWO_248 then Some(WrongExtAmount)
    else if (p.publicAmount - ext.extAmount) % MODULUS != 0 then Some(WrongExtAmount)
    else if call.answers.aspRoot != p.aspMembershipRoot then Some(ContractError.InvalidProof)
    else if p.proof.a == [] || p.proof.b == [] || p.proof.c == [] then Some(ContractError.InvalidProof)
    else if verdict.Err? then Some(Trapped(VerifierRefused))
    else if verdict != Ok(true) then Some(ContractError.InvalidProof)
    else None
  }

  /** A withdrawal that cannot be worked out in 128 bits. */
  function PlanRefusal(cfg: Config, extAmount: int): Option<ContractError> {
    if extAmount < 0 && -extAmount >= TWO_127 then Some(WrongExtAmount)
    else if extAmount < 0 && -extAmount * cfg.feeBps >= TWO_127 then Some(ContractError.Overflow)
    else None
  }

  predicate CannotPay(cfg: Config, s: State, ext: ExtData) {
    ext.extAmount < 0 && PoolBalance(cfg, s) < Needed(cfg, ext.recipient, Magnitude(ext.extAmount))
  }

  function DepositRefusal(cfg: Config, s: State, call: Call): Option<ContractError> {
    var amount: int := call.ext.extAmount;
    if amount <= 0 then None
    else if amount > cfg.maximumDeposit || amount >= TWO_127 then Some(WrongExtAmount)
    else if BalanceOf(s.balances, call.sender) < amount then Some(Trapped(TokenRefused))
    else None
  }

  ghost function TransactRefusal(host: Host, cfg: Config, s: State, call: Call): Option<ContractError> {
    if !call.authorized then Some(Trapped(Unauthorized))
    else if DepositRefusal(cfg, s, call).Some? then DepositRefusal(cfg, s, call)
    else if CheckRefusal(host, s, call).Some? then CheckRefusal(host, s, call)
    else if !NewOutputs(s, call.proof) then Some(AlreadyInsertedCommitment)
    else if PlanRefusal(cfg, call.ext.extAmount).Some? then PlanRefusal(cfg, call.ext.extAmount)
    else if |s.leaves| + 2 > Pow2(s.levels) then Some(ContractError.MerkleTreeFull)
    else if CannotPay(cfg, s, call.ext) then Some(Trapped(TokenRefused))
    else None
  }

  ghost function ExitRefusal(host: Host, cfg: Config, s: State, call: Call): Option<ContractError> {
    if !call.authorized then Some(Trapped(Unauthorized))
    else if |s.leaves| + 2 <= Pow2(s.levels) then Some(TreeNotFull)
    else if call.ext.extAmount >= 0 then Some(WrongExtAmount)
    else if CheckRefusal(host, s, call).Some? then CheckRefusal(host, s, call)
    else if PlanRefusal(cfg, call.ext.extAmount).Some? then PlanRefusal(cfg, call.ext.extAmount)
    else if CannotPay(cfg, s, call.ext) then Some(Trapped(TokenRefused))
    else None
  }

  /** An answer and the refusal foretold agree: accepted exactly when none, and otherwise for that reason. */
  predicate Foretold(r: Result<State, ContractError>, refusal: Option<ContractError>) {
    match r
    case Ok(_) => refusal.None?
    case Err(e) => refusal == Some(e)
  }

  // ---------- The proofs

  lemma RangeIsField(p: Proof)
    ensures InRange(p) <==> ProofInField(p)
  {
    var five := [p.root, p.publicAmount, p.outputCommitment0, p.outputCommitment1, p.aspMembershipRoot];
    if InRange(p) {
      assert forall x :: x in five ==> x in five + p.inputNullifiers;
      assert five[0] in five && five[1] in five && five[2] in five && five[3] in five && five[4] in five;
      forall i | 0 <= i < |p.inputNullifiers|
        ensures InField(p.inputNullifiers[i])
      {
        assert p.inputNullifiers[i] in five + p.inputNullifiers;
      }
    }
  }

  lemma NewIsUnspent(s: State, ns: seq<nat>)
    ensures NewNullifiers(s, ns) <==> Unspent(s.nullifiers, ns)
  {
    if Unspent(s.nullifiers, ns) {
      forall n | n in ns
        ensures n !in s.nullifiers
      {
        var i :| 0 <= i < |ns| && ns[i] == n;
      }
    }
  }

  lemma EncodingIsUnique(publicAmount: nat, extAmount: I256)
    requires publicAmount < MODULUS
    ensures PublicAmount(extAmount) == Ok(publicAmount)
            <==> Magnitude(extAmount) < TWO_248 && (publicAmount - extAmount) % MODULUS == 0
    ensures PublicAmount(extAmount).Err? ==>
              PublicAmount(extAmount).error == if extAmount == -TWO_255 then Trapped(Arithmetic) else WrongExtAmount
  {
    if PublicAmount(extAmount).Ok? && (publicAmount - extAmount) % MODULUS == 0 {
      SameResidue(publicAmount, PublicAmount(extAmount).value, extAmount);
    }
  }

  lemma SameResidue(a: nat, b: nat, x: int)
    requires a < MODULUS && b < MODULUS && (a - x) % MODULUS == 0 && (b - x) % MODULUS == 0
    ensures a == b
  {
    var p, q := (a - x) / MODULUS, (b - x) / MODULUS;
    assert a - x == MODULUS * p && b - x == MODULUS * q;
    assert a - b == MODULUS * (p - q);
  }

  /** The checks of `settle`, up to the verifier's answer. */
  lemma ChecksAreForetold(host: Host, s: State, call: Call)
    ensures var p := call.proof;
            match CheckStatement(host, s, p, call.ext)
            case Err(e) => CheckRefusal(host, s, call) == Some(e)
            case Ok(_) =>
              match CheckAllowlist(p, call.answers.aspRoot)
              case Err(e) => CheckRefusal(host, s, call) == Some(e)
              case Ok(_) =>
                match CheckProof(p, call.answers.verify)
                case Err(e) => CheckRefusal(host, s, call) == Some(e)
                case Ok(_) => CheckRefusal(host, s, call).None?
  {
    hide InRange, NewNullifiers, ProofInField, Unspent, KnownRoot, PublicAmount;
    RangeIsField(call.proof);
    NewIsUnspent(s, call.proof.inputNullifiers);
    if InRange(call.proof) {
      PublicAmountInRange(call.proof);
      EncodingIsUnique(call.proof.publicAmount, call.ext.extAmount);
    }
  }

  lemma PublicAmountInRange(p: Proof)
    requires InRange(p)
    ensures p.publicAmount < MODULUS
  {
    var five := [p.root, p.publicAmount, p.outputCommitment0, p.outputCommitment1, p.aspMembershipRoot];
    assert five[1] in five + p.inputNullifiers;
  }

  lemma PlanIsForetold(cfg: Config, ext: ExtData)
    requires cfg.feeBps <= 10_000 && Magnitude(ext.extAmount) < TWO_248
    ensures match PlanPayout(cfg, ext)
            case Err(e) => PlanRefusal(cfg, ext.extAmount) == Some(e)
            case Ok(payout) =>
              && PlanRefusal(cfg, ext.extAmount).None?
              && payout == if ext.extAmount >= 0 then None
                           else
                             var amount := Magnitude(ext.extAmount);
                             var fee := amount * cfg.feeBps / 10_000;
                             Some(Payout(Magnitude(amount - fee), fee))
    ensures ext.extAmount < 0 ==> Magnitude(ext.extAmount) * cfg.feeBps / 10_000 <= Magnitude(ext.extAmount)
  {
    if ext.extAmount < 0 {
      var amount := Magnitude(ext.extAmount);
      assert amount * cfg.feeBps <= amount * 10_000;
    }
  }

  /** Both payouts go through exactly when the pool holds what they need. */
  lemma PayingIsForetold(cfg: Config, c: Committed, p: Proof, ext: ExtData)
    requires cfg.feeBps <= 10_000 && FitsI128(ext.extAmount) && PlanPayout(cfg, ext) == Ok(c.payout)
    ensures Foretold(Finish(cfg, c, p, ext), if CannotPay(cfg, c.state, ext) then Some(Trapped(TokenRefused)) else None)
  {
    hide PlanPayout, Announcement;
    PlanIsForetold(cfg, ext);
  }

  /** Writing the nullifiers and outputs: only used outputs, an unplannable payout or a full tree stop it. */
  lemma CommitIsForetold(cfg: Config, s: State, p: Proof, ext: ExtData, insertOutputs: bool)
    requires LeavesMatchCommitments(s) && Unspent(s.nullifiers, p.inputNullifiers)
    requires cfg.feeBps <= 10_000 && Magnitude(ext.extAmount) < TWO_248
    ensures var refusal := if insertOutputs && !NewOutputs(s, p) then Some(AlreadyInsertedCommitment)
                           else if PlanRefusal(cfg, ext.extAmount).Some? then PlanRefusal(cfg, ext.extAmount)
                           else if insertOutputs && |s.leaves| + 2 > Pow2(s.levels) then Some(ContractError.MerkleTreeFull)
                           else None;
            match Commit(cfg, s, p, ext, insertOutputs)
            case Err(e) => refusal == Some(e)
            case Ok(c) => refusal.None? && c.state.balances == s.balances && PlanPayout(cfg, ext) == Ok(c.payout)
  {
    hide PlanPayout, PlanRefusal, Unspent;
    PlanIsForetold(cfg, ext);
    assert forall x :: x in s.commitments <==> x in s.leaves;
  }

  /** `settle`, from its first check to its last event. */
  lemma SettleIsForetold(host: Host, cfg: Config, s: State, call: Call, insertOutputs: bool)
    requires LeavesMatchCommitments(s) && cfg.feeBps <= 10_000
    requires call.ext.extAmount < TWO_127
    ensures Foretold(Settle(host, cfg, s, call, insertOutputs),
                     if CheckRefusal(host, s, call).Some? then CheckRefusal(host, s, call)
                     else if insertOutputs && !NewOutputs(s, call.proof) then Some(AlreadyInsertedCommitment)
                     else if PlanRefusal(cfg, call.ext.extAmount).Some? then PlanRefusal(cfg, call.ext.extAmount)
                     else if insertOutputs && |s.leaves| + 2 > Pow2(s.levels) then Some(ContractError.MerkleTreeFull)
                     else if CannotPay(cfg, s, call.ext) then Some(Trapped(TokenRefused))
                     else None)
  {
    hide CheckStatement, CheckAllowlist, CheckProof, Commit, Finish, NewOutputs, LeavesMatchCommitments, CannotPay;
    ChecksAreForetold(host, s, call);
    if CheckRefusal(host, s, call).None? {
      NewIsUnspent(s, call.proof.inputNullifiers);
      CommitIsForetold(cfg, s, call.proof, call.ext, insertOutputs);
      var committed := Commit(cfg, s, call.proof, call.ext, insertOutputs);
      if committed.Ok? {
        PayingIsForetold(cfg, committed.value, call.proof, call.ext);
        SameHoldings(cfg, s, committed.value.state, call.ext);
      }
    }
  }

  lemma SameHoldings(cfg: Config, s: State, s': State, ext: ExtData)
    requires s'.balances == s.balances
    ensures CannotPay(cfg, s', ext) <==> CannotPay(cfg, s, ext)
  {
  }

  /** A deposit changes balances only, and not the pool's in a withdrawal. */
  lemma DepositIsForetold(cfg: Config, s: State, call: Call)
    ensures match TakeDeposit(cfg, s, call)
            case Err(e) => DepositRefusal(cfg, s, call) == Some(e)
            case Ok(s1) =>
              && DepositRefusal(cfg, s, call).None? && call.ext.extAmount < TWO_127
              && s1 == s.(balances := s1.balances) && (call.ext.extAmount <= 0 ==> s1 == s)
  {
  }

  lemma ChecksIgnoreBalances(host: Host, s: State, s': State, call: Call)
    requires s' == s.(balances := s'.balances)
    ensures CheckRefusal(host, s', call) == CheckRefusal(host, s, call)
    ensures NewOutputs(s', call.proof) <==> NewOutputs(s, call.proof)
  {
  }

  /** `transact` accepts exactly the calls with nothing wrong, and names the first thing wrong with the others. */
  lemma TransactIsForetold(host: Host, cfg: Config, s: State, call: Call)
    requires LeavesMatchCommitments(s) && cfg.feeBps <= 10_000
    ensures Foretold(Transact(host, cfg, s, call), TransactRefusal(host, cfg, s, call))
  {
    hide CheckRefusal, Settle, NewOutputs, TakeDeposit, DepositRefusal, PlanRefusal;
    if call.authorized {
      DepositIsForetold(cfg, s, call);
      var deposited := TakeDeposit(cfg, s, call);
      if deposited.Ok? {
        var s1 := deposited.value;
        ChecksIgnoreBalances(host, s, s1, call);
        SettleIsForetold(host, cfg, s1, call, true);
      }
    }
  }

  lemma ExitIsForetold(host: Host, cfg: Config, s: State, call: Call)
    requires LeavesMatchCommitments(s) && cfg.feeBps <= 10_000
    ensures Foretold(ExitPool(host, cfg, s, call), ExitRefusal(host, cfg, s, call))
  {
    hide CheckRefusal, Settle, PlanRefusal, NewOutputs;
    if call.ext.extAmount < 0 {
      SettleIsForetold(host, cfg, s, call, false);
    }
  }

  // ---------- Over runs

  /** Everything that must be right about a call of `transact`. */
  ghost predicate Acceptable(host: Host, cfg: Config, s: State, call: Call) {
    var p, ext := call.proof, call.ext;
    && call.authorized
    && (ext.extAmount > 0 ==> ext.extAmount <= cfg.maximumDeposit && ext.extAmount < TWO_127
                              && ext.extAmount <= BalanceOf(s.balances, call.sender))
    && InRange(p) && KnownRoot(host, s, p.root) && NewNullifiers(s, p.inputNullifiers)
    && host.hashExtData(ext) == p.extDataHash
    && Magnitude(ext.extAmount) < TWO_248 && (p.publicAmount - ext.extAmount) % MODULUS == 0
    && call.answers.aspRoot == p.aspMembershipRoot
    && p.proof.a != [] && p.proof.b != [] && p.proof.c != [] && call.answers.verify(p.proof, PublicInputs(p)) == Ok(true)
    && NewOutputs(s, p) && |s.leaves| + 2 <= Pow2(s.levels)
    && (ext.extAmount < 0 ==>
          && Magnitude(ext.extAmount) < TWO_127 && Magnitude(ext.extAmount) * cfg.feeBps < TWO_127
          && Needed(cfg, ext.recipient, Magnitude(ext.extAmount)) <= PoolBalance(cfg, s))
  }

  /** In every reachable state `transact` accepts a call if and only if all of it is right. */
  lemma {:induction false} AcceptedExactlyWhen(host: Host, cfg: Config, start: State, steps: seq<Step>, call: Call)
    requires Fresh(start) && cfg.feeBps <= 10_000
    ensures var s := After(host, cfg, start, steps);
            Transact(host, cfg, s, call).Ok? <==> Acceptable(host, cfg, s, call)
  {
    hide Transact, InRange, NewNullifiers, KnownRoot, NewOutputs, Needed;
    var s := After(host, cfg, start, steps);
    LeavesAlwaysMatch(host, cfg, start, steps);
    TransactIsForetold(host, cfg, s, call);
  }

  /** In every run each refused step was refused for the first thing wrong with it. */
  lemma {:induction false} RefusalsOverRuns(host: Host, cfg: Config, start: State, steps: seq<Step>, i: nat)
    requires Fresh(start) && cfg.feeBps <= 10_000 && i < |steps| && !steps[i].OutsideStep?
    ensures var s := After(host, cfg, start, steps[..i]);
            Foretold(Execute(host, cfg, s, steps[i]),
                     if steps[i].TransactStep? then TransactRefusal(host, cfg, s, steps[i].call)
                     else ExitRefusal(host, cfg, s, steps[i].call))
  {
    hide Transact, ExitPool, TransactRefusal, ExitRefusal;
    var s := After(host, cfg, start, steps[..i]);
    LeavesAlwaysMatch(host, cfg, start, steps[..i]);
    if steps[i].TransactStep? {
      TransactIsForetold(host, cfg, s, steps[i].call);
    } else {
      ExitIsForetold(host, cfg, s, steps[i].call);
    }
  }

  // ---------- What accepted steps move

  function If(yes: bool, amount: int): int {
    if yes then amount else 0
  }

  /** What a step adds to the balance of `who`: deposits from the sender, payouts to recipient and fee recipient. */
  function MovedTo(cfg: Config, step: Step, who: Address): int {
    match step
    case OutsideStep(from, to, amount) => If(who == to, amount) - If(who == from, amount)
    case _ =>
      var call := step.call;
      var amount := Magnitude(call.ext.extAmount);
      var fee := amount * cfg.feeBps / 10_000;
      if call.ext.extAmount >= 0 then If(who == cfg.self, amount) - If(who == call.sender, amount)
      else If(who == call.ext.recipient, amount - fee) + If(who == cfg.feeRecipient, fee) - If(who == cfg.self, amount)
  }

  lemma TransferMoves(balances: map<Address, nat>, from: Address, to: Address, amount: nat, who: Address)
    requires Transfer(balances, from, to, amount).Some?
    ensures BalanceOf(Transfer(balances, from, to, amount).value, who)
            == BalanceOf(balances, who) + If(who == to, amount) - If(who == from, amount)
  {
  }

  lemma FinishMoves(cfg: Config, c: Committed, p: Proof, ext: ExtData, who: Address)
    requires Finish(cfg, c, p, ext).Ok?
    ensures BalanceOf(Finish(cfg, c, p, ext).value.balances, who)
            == BalanceOf(c.state.balances, who)
               + match c.payout
                 case None => 0
                 case Some(payout) =>
                   If(who == ext.recipient, payout.recipientAmount) + If(who == cfg.feeRecipient, payout.fee)
                   - If(who == cfg.self, payout.recipientAmount + payout.fee)
  {
    hide Transfer, Announcement;
    if c.payout.Some? {
      var payout := c.payout.value;
      if payout.recipientAmount > 0 {
        TransferMoves(c.state.balances, cfg.self, ext.recipient, payout.recipientAmount, who);
      }
      var paid := PayRecipient(cfg, c.state, ext, c.payout).value;
      if payout.fee > 0 {
        TransferMoves(paid.balances, cfg.self, cfg.feeRecipient, payout.fee, who);
      }
    }
  }

  lemma SettleMoves(host: Host, cfg: Config, s: State, call: Call, insertOutputs: bool, who: Address)
    requires cfg.feeBps <= 10_000 && Settle(host, cfg, s, call, insertOutputs).Ok?
    ensures BalanceOf(Settle(host, cfg, s, call, insertOutputs).value.balances, who)
            == BalanceOf(s.balances, who) + if call.ext.extAmount < 0 then MovedTo(cfg, ExitStep(call), who) else 0
  {
    hide CheckStatement, CheckProof, Finish;
    var c := Commit(cfg, s, call.proof, call.ext, insertOutputs).value;
    assert PlanPayout(cfg, call.ext) == Ok(c.payout) && c.state.balances == s.balances;
    SettledAmount(host, cfg, s, call, insertOutputs);
    hide Commit, PlanPayout;
    PlanIsForetold(cfg, call.ext);
    FinishMoves(cfg, c, call.proof, call.ext, who);
  }

  lemma SettledAmount(host: Host, cfg: Config, s: State, call: Call, insertOutputs: bool)
    requires Settle(host, cfg, s, call, insertOutputs).Ok?
    ensures Magnitude(call.ext.extAmount) < TWO_248
  {
    SettleEffect(host, cfg, s, call, insertOutputs);
  }

  /** An accepted step moves exactly this, for every address, whoever coincides with whom. */
  lemma StepMoves(host: Host, cfg: Config, s: State, step: Step, who: Address)
    requires cfg.feeBps <= 10_000 && Execute(host, cfg, s, step).Ok?
    ensures BalanceOf(Next(host, cfg, s, step).balances, who) == BalanceOf(s.balances, who) + MovedTo(cfg, step, who)
  {
    hide Settle, Transfer;
    match step
    case TransactStep(call) =>
      var s1 := TakeDeposit(cfg, s, call).value;
      SettleMoves(host, cfg, s1, call, true, who);
      if call.ext.extAmount > 0 {
        TransferMoves(s.balances, call.sender, cfg.self, call.ext.extAmount, who);
      }
    case ExitStep(call) => SettleMoves(host, cfg, s, call, false, who);
    case OutsideStep(from, to, amount) => TransferMoves(s.balances, from, to, amount, who);
  }

  ghost function TotalMovedTo(host: Host, cfg: Config, start: State, steps: seq<Step>, who: Address): int {
    if steps == [] then 0
    else
      var n := |steps| - 1;
      TotalMovedTo(host, cfg, start, steps[..n], who) + if Accepted(host, cfg, start, steps, n) then MovedTo(cfg, steps[n], who) else 0
  }

  /** Over every run every address holds what it began with and what the accepted steps moved to it. */
  lemma {:induction false} LedgerOverRuns(host: Host, cfg: Config, start: State, steps: seq<Step>, who: Address)
    requires cfg.feeBps <= 10_000
    ensures BalanceOf(After(host, cfg, start, steps).balances, who)
            == BalanceOf(start.balances, who) + TotalMovedTo(host, cfg, start, steps, who)
  {
    hide Execute, MovedTo;
    if steps != [] {
      var n := |steps| - 1;
      LedgerOverRuns(host, cfg, start, steps[..n], who);
      if Accepted(host, cfg, start, steps, n) {
        StepMoves(host, cfg, After(host, cfg, start, steps[..n]), steps[n], who);
      }
    }
  }
}
