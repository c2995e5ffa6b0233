/**
 The pool's settlement as a function of its storage: what one `transact` or
 `exit` checks, writes, pays and announces, cut at every call it makes to
 another contract.
 */
module Settlement {
  import opened Wrappers
  import opened Numbers
  import opened MerkleSpec
  import opened RootHistory
  import opened PoolTypes
  import opened Amounts
  import opened VerifierBoundary

  /** The hashes the pool computes: tree nodes and external data. */
  datatype Host = Host(h: Hash, zero: nat, hashExtData: ExtData -> nat)

  /** The pool's storage, the token's balances and the published events. */
  datatype State = State(
    levels: nat,
    leaves: seq<nat>,
    nullifiers: set<nat>,
    commitments: set<nat>,
    balances: map<Address, nat>,
    events: seq<Event>)

  /** What the allowlist and the verifier answer during a call. */
  datatype Answers = Answers(aspRoot: nat, verify: (Groth16Proof, seq<nat>) -> Result<bool, Groth16Error>)

  datatype Call = Call(proof: Proof, ext: ExtData, sender: Address, authorized: bool, answers: Answers)

  /** What is left to pay out: to the recipient, and as protocol fee. */
  datatype Payout = Payout(recipientAmount: nat, fee: nat)

  function Initial(levels: nat): State {
    State(levels, [], {}, {}, map[], [])
  }

  // ---------- The token ledger

  function BalanceOf(balances: map<Address, nat>, a: Address): nat {
    if a in balances then balances[a] else 0
  }

  /** `transfer` of an honest token: moves the amount, or traps when it is not there. */
  function Transfer(balances: map<Address, nat>, from: Address, to: Address, amount: nat): (r: Option<map<Address, nat>>)
    ensures r.Some? <==> amount <= BalanceOf(balances, from)
    ensures r.Some? && from != to ==>
              && BalanceOf(r.value, from) == BalanceOf(balances, from) - amount
              && BalanceOf(r.value, to) == BalanceOf(balances, to) + amount
    ensures r.Some? && from == to ==> BalanceOf(r.value, from) == BalanceOf(balances, from)
    ensures r.Some? ==> forall a: Address :: a != from && a != to ==> BalanceOf(r.value, a) == BalanceOf(balances, a)
  {
    if amount > BalanceOf(balances, from) then None
    else
      var debited := balances[from := BalanceOf(balances, from) - amount];
      Some(debited[to := BalanceOf(debited, to) + amount])
  }

  function MoveTokens(s: State, from: Address, to: Address, amount: nat): Result<State, ContractError> {
    match Transfer(s.balances, from, to, amount)
    case None => Err(Trapped(TokenRefused))
    case Some(balances) => Ok(s.(balances := balances))
  }

  // ---------- The checks

  predicate ProofInField(p: Proof) {
    && InField(p.root) && InField(p.publicAmount) && AllInField(p.inputNullifiers)
    && InField(p.outputCommitment0) && InField(p.outputCommitment1) && InField(p.aspMembershipRoot)
  }

  /** None of `nullifiers` is spent, and none occurs twice. */
  predicate Unspent(spent: set<nat>, nullifiers: seq<nat>) {
    NoRepeats(nullifiers) && forall i :: 0 <= i < |nullifiers| ==> nullifiers[i] !in spent
  }

  ghost predicate KnownRoot(host: Host, s: State, root: nat) {
    RecentRoot(host.h, host.zero, s.levels, s.leaves, root)
  }

  /** Everything `settle` checks before it asks another contract. */
  ghost function CheckStatement(host: Host, s: State, p: Proof, ext: ExtData): Result<(), ContractError> {
    if !ProofInField(p) then Err(InvalidFieldElement)
    else if !KnownRoot(host, s, p.root) then Err(UnknownRoot)
    else if !Unspent(s.nullifiers, p.inputNullifiers) then Err(AlreadySpentNullifier)
    else if host.hashExtData(ext) != p.extDataHash then Err(WrongExtHash)
    else match PublicAmount(ext.extAmount)
      case Err(e) => Err(e)
      case Ok(amount) => if p.publicAmount != amount then Err(WrongExtAmount) else Ok(())
  }

  function CheckAllowlist(p: Proof, aspRoot: nat): Result<(), ContractError> {
    if aspRoot != p.aspMembershipRoot then Err(ContractError.InvalidProof) else Ok(())
  }

  /** A verifier that answers with an error aborts the call. */
  function CheckProof(p: Proof, verify: (Groth16Proof, seq<nat>) -> Result<bool, Groth16Error>): Result<(), ContractError> {
    if p.proof.IsEmpty() then Err(ContractError.InvalidProof)
    else match verify(p.proof, PublicInputs(p))
      case Err(_) => Err(Trapped(VerifierRefused))
      case Ok(valid) => if valid then Ok(()) else Err(ContractError.InvalidProof)
  }

  // ---------- The writes

  function PlanPayout(cfg: Config, ext: ExtData): Result<Option<Payout>, ContractError> {
    if ext.extAmount >= 0 then Ok(None)
    else if ext.extAmount == -TWO_255 then Err(Trapped(Arithmetic))
    else match ToI128NonNegative(-ext.extAmount)
      case Err(e) => Err(e)
      case Ok(amount) =>
        match FeeAmount(amount, cfg.feeBps)
        case Err(e) => Err(e)
        case Ok(fee) => if fee > amount then Err(ContractError.Overflow) else Ok(Some(Payout(amount - fee, fee)))
  }

  function NullifierEvents(nullifiers: seq<nat>): (e: seq<Event>)
    ensures |e| == |nullifiers| && forall i :: 0 <= i < |e| ==> e[i] == NewNullifier(nullifiers[i])
  {
    seq(|nullifiers|, i requires 0 <= i < |nullifiers| => NewNullifier(nullifiers[i]))
  }

  /** The state with the nullifiers spent, the payout owed and the positions of the outputs. */
  datatype Committed = Committed(state: State, payout: Option<Payout>, indices: Option<(nat, nat)>)

  function SpendNullifiers(s: State, nullifiers: seq<nat>): State {
    s.(nullifiers := s.nullifiers + Elements(nullifiers), events := s.events + NullifierEvents(nullifiers))
  }

  function InsertOutputs(s: State, p: Proof): State {
    s.(leaves := s.leaves + [p.outputCommitment0, p.outputCommitment1],
       commitments := s.commitments + {p.outputCommitment0, p.outputCommitment1})
  }

  predicate OutputsUsed(s: State, p: Proof) {
    || p.outputCommitment0 in s.commitments || p.outputCommitment1 in s.commitments
    || p.outputCommitment0 == p.outputCommitment1
  }

  /** Between the verifier's answer and the first payout: all of the pool's own writes. */
  function Commit(cfg: Config, s: State, p: Proof, ext: ExtData, insertOutputs: bool): Result<Committed, ContractError> {
    if insertOutputs && OutputsUsed(s, p) then Err(AlreadyInsertedCommitment)
    else if !Unspent(s.nullifiers, p.inputNullifiers) then Err(AlreadySpentNullifier)
    else match PlanPayout(cfg, ext)
      case Err(e) => Err(e)
      case Ok(payout) =>
        var spent := SpendNullifiers(s, p.inputNullifiers);
        if !insertOutputs then Ok(Committed(spent, payout, None))
        else if |s.leaves| + 2 > Pow2(s.levels) then Err(MerkleTreeFull)
        else Ok(Committed(InsertOutputs(spent, p), payout, Some((|s.leaves|, |s.leaves| + 1))))
  }

  // ---------- Payouts and events

  function PayRecipient(cfg: Config, s: State, ext: ExtData, payout: Option<Payout>): Result<State, ContractError> {
    if payout.Some? && payout.value.recipientAmount > 0
    then MoveTokens(s, cfg.self, ext.recipient, payout.value.recipientAmount)
    else Ok(s)
  }

  function PayFee(cfg: Config, s: State, payout: Option<Payout>): Result<State, ContractError> {
    if payout.Some? && payout.value.fee > 0
    then MoveTokens(s, cfg.self, cfg.feeRecipient, payout.value.fee)
    else Ok(s)
  }

  function ExitEvents(p: Proof, ext: ExtData): (e: seq<Event>)
    ensures |e| == |p.inputNullifiers| && forall i :: 0 <= i < |e| ==> e[i].Exit?
  {
    seq(|p.inputNullifiers|, i requires 0 <= i < |p.inputNullifiers| =>
      Exit(p.inputNullifiers[i], ext.extAmount, p.publicAmount, ext.recipient))
  }

  function SettlementEvents(p: Proof, ext: ExtData, indices: (nat, nat), recipient: Option<Address>): (e: seq<Event>)
    ensures |e| == |p.inputNullifiers| && forall i :: 0 <= i < |e| ==> e[i].Settlement?
  {
    seq(|p.inputNullifiers|, i requires 0 <= i < |p.inputNullifiers| =>
      Settlement(p.inputNullifiers[i], p.outputCommitment0, p.outputCommitment1, indices.0, indices.1,
                 ext.extAmount, p.publicAmount, recipient))
  }

  function Announcement(p: Proof, ext: ExtData, payout: Option<Payout>, indices: Option<(nat, nat)>): seq<Event> {
    if indices.None? then ExitEvents(p, ext)
    else
      var recipient := if payout.Some? then Some(ext.recipient) else None;
      [NewCommitment(p.outputCommitment0, indices.value.0, ext.encryptedOutput0),
       NewCommitment(p.outputCommitment1, indices.value.1, ext.encryptedOutput1)]
      + SettlementEvents(p, ext, indices.value, recipient)
  }

  /** The last lines of `settle`, after both payouts. */
  function Announce(s: State, p: Proof, ext: ExtData, payout: Option<Payout>, indices: Option<(nat, nat)>): Result<State, ContractError> {
    if !FitsI128(ext.extAmount) then Err(WrongExtAmount)
    else Ok(s.(events := s.events + Announcement(p, ext, payout, indices)))
  }

  // ---------- The entrypoints

  function Finish(cfg: Config, c: Committed, p: Proof, ext: ExtData): Result<State, ContractError> {
    match PayRecipient(cfg, c.state, ext, c.payout)
    case Err(e) => Err(e)
    case Ok(s1) =>
      match PayFee(cfg, s1, c.payout)
      case Err(e) => Err(e)
      case Ok(s2) => Announce(s2, p, ext, c.payout, c.indices)
  }

  /** `settle`, as if nothing else ran during its external calls. */
  ghost function Settle(host: Host, cfg: Config, s: State, call: Call, insertOutputs: bool): Result<State, ContractError> {
    var p, ext := call.proof, call.ext;
    match CheckStatement(host, s, p, ext)
    case Err(e) => Err(e)
    case Ok(_) =>
      match CheckAllowlist(p, call.answers.aspRoot)
      case Err(e) => Err(e)
      case Ok(_) =>
        match CheckProof(p, call.answers.verify)
        case Err(e) => Err(e)
        case Ok(_) =>
          match Commit(cfg, s, p, ext, insertOutputs)
          case Err(e) => Err(e)
          case Ok(c) => Finish(cfg, c, p, ext)
  }

  /** The deposit at the start of `transact`. */
  function TakeDeposit(cfg: Config, s: State, call: Call): Result<State, ContractError> {
    if call.ext.extAmount <= 0 then Ok(s)
    else if call.ext.extAmount > cfg.maximumDeposit then Err(WrongExtAmount)
    else match ToI128NonNegative(call.ext.extAmount)
      case Err(e) => Err(e)
      case Ok(amount) => MoveTokens(s, call.sender, cfg.self, amount)
  }

  ghost function Transact(host: Host, cfg: Config, s: State, call: Call): Result<State, ContractError> {
    if !call.authorized then Err(Trapped(Unauthorized))
    else match TakeDeposit(cfg, s, call)
      case Err(e) => Err(e)
      case Ok(s1) => Settle(host, cfg, s1, call, true)
  }

  predicate Full(s: State) {
    |s.leaves| + 2 > Pow2(s.levels)
  }

  function CheckExit(s: State, call: Call): Result<(), ContractError> {
    if !call.authorized then Err(Trapped(Unauthorized))
    else if !Full(s) then Err(TreeNotFull)
    else if call.ext.extAmount >= 0 then Err(WrongExtAmount)
    else Ok(())
  }

  ghost function ExitPool(host: Host, cfg: Config, s: State, call: Call): Result<State, ContractError> {
    match CheckExit(s, call)
    case Err(e) => Err(e)
    case Ok(_) => Settle(host, cfg, s, call, false)
  }
}
