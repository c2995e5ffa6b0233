/** The pool contract: storage, the entrypoints and the helpers they go through. */
module PoolContract {
  import opened Wrappers
  import opened Numbers
  import opened MerkleSpec
  import opened PoolTypes
  import opened Amounts
  import opened VerifierBoundary
  import opened Settlement
  import opened MerkleTree
  import opened PoolRuns
  import opened PoolMoney

  function FromMerkleError(e: MerkleError): ContractError {
    match e
    case AlreadyInitialized => ContractError.AlreadyInitialized
    case MerkleTreeFull => ContractError.MerkleTreeFull
    case WrongLevels => ContractError.WrongLevels
    case NextIndexNotEven => ContractError.NextIndexNotEven
    case NotInitialized => ContractError.NotInitialized
    case Overflow => ContractError.Overflow
    case HashRange => Trapped(HashInput)
  }

  /** The value of every storage key of the pool, with the token's ledger and the log. */
  datatype PoolStorage = PoolStorage(
    tree: Storage,
    nullifiers: map<nat, bool>,
    commitments: map<nat, bool>,
    balances: map<Address, nat>,
    events: seq<Event>)

  class Pool {
    const cfg: Config
    const hashExtData: ExtData -> nat
    const tree: MerkleTreeWithHistory

    var nullifiers: map<nat, bool>
    var commitments: map<nat, bool>
    /** The token contract's balances. */
    var balances: map<Address, nat>
    /** Events published so far. */
    var events: seq<Event>

    ghost predicate Valid()
      reads this, tree
      ensures Valid() ==> |tree.zeros| == 33 && tree.levels.Some?
    {
      && tree.Valid() && tree.Ready()
      && (forall n :: n in nullifiers ==> nullifiers[n])
      && (forall c :: c in commitments ==> commitments[c])
      && cfg.feeBps <= MAX_FEE_BPS
    }

    ghost function Env(): Host
      requires |tree.zeros| > 0
    {
      Host(tree.h, tree.zeros[0], hashExtData)
    }

    ghost function Abstract(): State
      requires tree.levels.Some?
      reads this, tree
    {
      State(tree.levels.value, tree.leaves, nullifiers.Keys, commitments.Keys, balances, events)
    }

    /** What the host remembers before a call. */
    function Snapshot(): PoolStorage
      reads this, tree
    {
      PoolStorage(tree.Snapshot(), nullifiers, commitments, balances, events)
    }

    /** This storage, frontier and ring of roots included, is that of a pool in state `s`. */
    ghost predicate Holds(st: PoolStorage, s: State)
      requires |tree.zeros| > 0
    {
      && HoldsTree(tree.h, tree.zeros[0], st.tree, s.leaves) && st.tree.levels == Some(s.levels)
      && s.nullifiers == st.nullifiers.Keys && (forall n :: n in st.nullifiers ==> st.nullifiers[n])
      && s.commitments == st.commitments.Keys && (forall c :: c in st.commitments ==> st.commitments[c])
      && s.balances == st.balances && s.events == st.events
    }

    lemma SnapshotHolds()
      requires Valid()
      ensures Holds(Snapshot(), Abstract())
    {
      hide HoldsTree;
    }

    /** What the host does when a call fails. */
    method Restore(st: PoolStorage, ghost s: State)
      requires Valid() && Holds(st, s)
      modifies this, tree
      ensures Valid() && Abstract() == s
    {
      hide HoldsTree;
      tree.Restore(st.tree, s.leaves);
      nullifiers, commitments, balances, events := st.nullifiers, st.commitments, st.balances, st.events;
    }

    /** The token's ledger changes by itself. */
    method SetLedger(balances: map<Address, nat>)
      requires Valid()
      modifies this`balances
      ensures Valid() && Abstract() == old(Abstract()).(balances := balances)
    {
      this.balances := balances;
    }

    constructor (cfg: Config, hashExtData: ExtData -> nat, tree: MerkleTreeWithHistory, balances: map<Address, nat>)
      requires tree.Valid() && tree.Ready() && cfg.feeBps <= MAX_FEE_BPS
      ensures Valid() && this.tree == tree && this.cfg == cfg && this.hashExtData == hashExtData
      ensures nullifiers == map[] && commitments == map[] && events == [] && this.balances == balances
    {
      this.cfg, this.hashExtData, this.tree, this.balances := cfg, hashExtData, tree, balances;
      nullifiers, commitments, events := map[], map[], [];
    }

    /** `__constructor`: refuses a fee above 100% and a depth outside 1 to 32. */
    static method Deploy(cfg: Config, hashExtData: ExtData -> nat, h: Hash, zeros: seq<nat>, levels: nat, balances: map<Address, nat>)
      returns (r: Result<Pool, ContractError>)
      requires Closed(h) && ZeroTable(h, zeros)
      ensures r.Err? ==> r.error == if cfg.feeBps > MAX_FEE_BPS then InvalidFee else ContractError.WrongLevels
      ensures r.Ok? <==> cfg.feeBps <= MAX_FEE_BPS && 1 <= levels <= 32
      ensures r.Ok? ==> fresh(r.value) && fresh(r.value.tree) && r.value.Valid() && r.value.cfg == cfg
                        && r.value.Env() == Host(h, zeros[0], hashExtData)
                        && r.value.Abstract() == Initial(levels).(balances := balances)
    {
      if cfg.feeBps > MAX_FEE_BPS {
        return Err(InvalidFee);
      }
      var tree := new MerkleTreeWithHistory(h, zeros);
      var started := tree.Init(levels);
      if started.Err? {
        return Err(FromMerkleError(started.error));
      }
      var pool := new Pool(cfg, hashExtData, tree, balances);
      return Ok(pool);
    }

    // ---------- Checks

    /** `ensure_field_elements` */
    static method EnsureFieldElements(values: seq<nat>) returns (r: Result<(), ContractError>)
      ensures r == if AllInField(values) then Ok(()) else Err(InvalidFieldElement)
    {
      var i := 0;
      while i < |values|
        invariant 0 <= i <= |values|
        invariant forall j :: 0 <= j < i ==> InField(values[j])
      {
        if values[i] >= MODULUS {
          assert !InField(values[i]);
          return Err(InvalidFieldElement);
        }
        i := i + 1;
      }
      return Ok(());
    }

    /** `ensure_proof_field_elements` */
    static method EnsureProofFieldElements(p: Proof) returns (r: Result<(), ContractError>)
      ensures r == if ProofInField(p) then Ok(()) else Err(InvalidFieldElement)
    {
      if p.root >= MODULUS || p.publicAmount >= MODULUS {
        return Err(InvalidFieldElement);
      }
      r := EnsureFieldElements(p.inputNullifiers);
      if r.Err? {
        return r;
      }
      if p.outputCommitment0 >= MODULUS || p.outputCommitment1 >= MODULUS || p.aspMembershipRoot >= MODULUS {
        return Err(InvalidFieldElement);
      }
      return Ok(());
    }

    /** `ensure_nullifiers_unspent`: against storage and within the payload. */
    method EnsureNullifiersUnspent(ns: seq<nat>) returns (r: Result<(), ContractError>)
      requires Valid()
      ensures r == if Unspent(nullifiers.Keys, ns) then Ok(()) else Err(AlreadySpentNullifier)
    {
      var seen: map<nat, bool> := map[];
      var i := 0;
      while i < |ns|
        invariant 0 <= i <= |ns|
        invariant seen.Keys == Elements(ns[..i]) && forall n :: n in seen ==> seen[n]
        invariant Unspent(nullifiers.Keys, ns[..i])
      {
        var n := ns[i];
        if (n in nullifiers && nullifiers[n]) || (n in seen && seen[n]) {
          if n in seen {
            var j :| 0 <= j < i && ns[..i][j] == n;
            assert ns[j] == ns[i];
          }
          return Err(AlreadySpentNullifier);
        }
        assert n !in ns[..i];
        assert ns[..i + 1] == ns[..i] + [n];
        seen := seen[n := true];
        i := i + 1;
      }
      assert ns[..i] == ns;
      return Ok(());
    }

    /** `spend_nullifiers_once`: checks and marks in one storage update. */
    method SpendNullifiersOnce(ns: seq<nat>) returns (r: Result<(), ContractError>)
      requires Valid()
      modifies `nullifiers
      ensures Valid()
      ensures r == if Unspent(old(nullifiers.Keys), ns) then Ok(()) else Err(AlreadySpentNullifier)
      ensures nullifiers.Keys == if r.Ok? then old(nullifiers.Keys) + Elements(ns) else old(nullifiers.Keys)
    {
      r := EnsureNullifiersUnspent(ns);
      if r.Err? {
        return;
      }
      var stored := nullifiers;
      var i := 0;
      while i < |ns|
        invariant 0 <= i <= |ns|
        invariant stored.Keys == nullifiers.Keys + Elements(ns[..i]) && forall n :: n in stored ==> stored[n]
      {
        assert ns[..i + 1] == ns[..i] + [ns[i]];
        stored := stored[ns[i] := true];
        i := i + 1;
      }
      assert ns[..i] == ns;
      nullifiers := stored;
    }

    /** `settle` up to the first external call. */
    method CheckBeforeCalls(p: Proof, ext: ExtData) returns (r: Result<(), ContractError>)
      requires Valid()
      ensures r == CheckStatement(Env(), Abstract(), p, ext)
    {
      r := EnsureProofFieldElements(p);
      if r.Err? {
        return;
      }
      var known := tree.IsKnownRoot(p.root);
      match known {
        case Err(e) => return Err(FromMerkleError(e));
        case Ok(found) =>
          if !found {
            return Err(UnknownRoot);
          }
      }
      r := EnsureNullifiersUnspent(p.inputNullifiers);
      if r.Err? {
        return;
      }
      if hashExtData(ext) != p.extDataHash {
        return Err(WrongExtHash);
      }
      var expected := PublicAmount(ext.extAmount);
      if expected.Err? {
        return Err(expected.error);
      }
      if p.publicAmount != expected.value {
        return Err(WrongExtAmount);
      }
      return Ok(());
    }

    /** `verify_proof`: an error from the verifier aborts the call. */
    static method VerifyProof(p: Proof, verify: (Groth16Proof, seq<nat>) -> Result<bool, Groth16Error>)
      returns (r: Result<(), ContractError>)
      ensures r == CheckProof(p, verify)
    {
      if p.proof.IsEmpty() {
        return Err(ContractError.InvalidProof);
      }
      var inputs := FromProof(p);
      var answer := verify(p.proof, inputs);
      if answer.Err? {
        return Err(Trapped(VerifierRefused));
      }
      return if answer.value then Ok(()) else Err(ContractError.InvalidProof);
    }

    // ---------- Writes

    predicate IsCommitmentInserted(c: nat)
      reads this
    {
      c in commitments && commitments[c]
    }

    /** `mark_commitment_inserted` */
    method MarkCommitmentInserted(c: nat)
      requires Valid()
      modifies `commitments
      ensures Valid()
      ensures commitments.Keys == old(commitments.Keys) + {c}
    {
      commitments := commitments[c := true];
    }

    /** The payout of a withdrawal, worked out without moving anything. */
    static method WorkOutPayout(cfg: Config, ext: ExtData) returns (r: Result<Option<Payout>, ContractError>)
      ensures r == PlanPayout(cfg, ext)
    {
      if ext.extAmount >= 0 {
        return Ok(None);
      }
      if ext.extAmount == -TWO_255 {
        return Err(Trapped(Arithmetic));
      }
      var amount := ToI128NonNegative(-ext.extAmount);
      if amount.Err? {
        return Err(amount.error);
      }
      var fee := FeeAmount(amount.value, cfg.feeBps);
      if fee.Err? {
        return Err(fee.error);
      }
      if fee.value > amount.value {
        return Err(ContractError.Overflow);
      }
      return Ok(Some(Payout(amount.value - fee.value, fee.value)));
    }

    /** The nullifier events of `settle`. */
    method PublishNullifiers(ns: seq<nat>)
      modifies `events
      ensures events == old(events) + NullifierEvents(ns)
    {
      var i := 0;
      while i < |ns|
        invariant 0 <= i <= |ns|
        invariant events == old(events) + NullifierEvents(ns[..i])
      {
        assert NullifierEvents(ns[..i + 1]) == NullifierEvents(ns[..i]) + [NewNullifier(ns[i])];
        events := events + [NewNullifier(ns[i])];
        i := i + 1;
      }
      assert ns[..i] == ns;
    }

    /** Step 9 of `settle`: the outputs go into the tree and are marked. */
    method InsertCommitments(p: Proof) returns (r: Result<(nat, nat), ContractError>)
      requires Valid() && ProofInField(p)
      modifies tree, `commitments
      ensures Valid()
      ensures r == if Full(old(Abstract())) then Err(ContractError.MerkleTreeFull)
                   else Ok((|old(tree.leaves)|, |old(tree.leaves)| + 1))
      ensures Abstract() == if r.Ok? then InsertOutputs(old(Abstract()), p) else old(Abstract())
    {
      var inserted := tree.InsertTwoLeaves(p.outputCommitment0, p.outputCommitment1);
      if inserted.Err? {
        return Err(FromMerkleError(inserted.error));
      }
      MarkCommitmentInserted(p.outputCommitment0);
      MarkCommitmentInserted(p.outputCommitment1);
      assert commitments.Keys == old(commitments.Keys) + {p.outputCommitment0, p.outputCommitment1};
      return Ok(inserted.value);
    }

    /** Steps 7 to 9 of `settle`. Its writes stay behind when it fails. */
    method CommitWrites(p: Proof, ext: ExtData, insertOutputs: bool)
      returns (r: Result<(), ContractError>, payout: Option<Payout>, indices: Option<(nat, nat)>)
      requires Valid() && ProofInField(p)
      modifies this, tree
      ensures Valid()
      ensures r.Ok? ==> Commit(cfg, old(Abstract()), p, ext, insertOutputs) == Ok(Committed(Abstract(), payout, indices))
      ensures r.Err? ==> Commit(cfg, old(Abstract()), p, ext, insertOutputs) == Err(r.error)
    {
      payout, indices := None, None;
      if insertOutputs {
        if IsCommitmentInserted(p.outputCommitment0) || IsCommitmentInserted(p.outputCommitment1) {
          return Err(AlreadyInsertedCommitment), payout, indices;
        }
        if p.outputCommitment0 == p.outputCommitment1 {
          return Err(AlreadyInsertedCommitment), payout, indices;
        }
      }
      var spent := SpendNullifiersOnce(p.inputNullifiers);
      if spent.Err? {
        return Err(spent.error), payout, indices;
      }
      PublishNullifiers(p.inputNullifiers);
      var planned := WorkOutPayout(cfg, ext);
      if planned.Err? {
        return Err(planned.error), payout, indices;
      }
      payout := planned.value;
      if insertOutputs {
        var inserted := InsertCommitments(p);
        if inserted.Err? {
          return Err(inserted.error), payout, indices;
        }
        indices := Some(inserted.value);
      }
      return Ok(()), payout, indices;
    }

    // ---------- Payouts and events

    /** `transfer` on the token contract. */
    method TokenTransfer(from: Address, to: Address, amount: nat) returns (r: Result<(), ContractError>)
      requires Valid()
      modifies `balances
      ensures Valid()
      ensures r.Ok? ==> MoveTokens(old(Abstract()), from, to, amount) == Ok(Abstract())
      ensures r.Err? ==> MoveTokens(old(Abstract()), from, to, amount) == Err(r.error)
    {
      var moved := Transfer(balances, from, to, amount);
      if moved.None? {
        return Err(Trapped(TokenRefused));
      }
      balances := moved.value;
      return Ok(());
    }

    /** The closing events of `settle`. */
    method PublishSettlement(p: Proof, ext: ExtData, payout: Option<Payout>, indices: Option<(nat, nat)>)
      modifies `events
      ensures events == old(events) + Announcement(p, ext, payout, indices)
    {
      var i := 0;
      if indices.None? {
        while i < |p.inputNullifiers|
          invariant 0 <= i <= |p.inputNullifiers|
          invariant events == old(events) + ExitEvents(p, ext)[..i]
        {
          events := events + [Event.Exit(p.inputNullifiers[i], ext.extAmount, p.publicAmount, ext.recipient)];
          i := i + 1;
        }
        return;
      }
      var recipient := if payout.Some? then Some(ext.recipient) else None;
      events := events + [NewCommitment(p.outputCommitment0, indices.value.0, ext.encryptedOutput0)];
      events := events + [NewCommitment(p.outputCommitment1, indices.value.1, ext.encryptedOutput1)];
      ghost var announced := events;
      ghost var closing := SettlementEvents(p, ext, indices.value, recipient);
      while i < |p.inputNullifiers|
        invariant 0 <= i <= |p.inputNullifiers|
        invariant events == announced + closing[..i]
      {
        events := events + [Settlement(p.inputNullifiers[i], p.outputCommitment0, p.outputCommitment1,
                                       indices.value.0, indices.value.1, ext.extAmount, p.publicAmount, recipient)];
        i := i + 1;
      }
    }

    /** `settle` after both payouts. */
    method CloseCall(p: Proof, ext: ExtData, payout: Option<Payout>, indices: Option<(nat, nat)>)
      returns (r: Result<(), ContractError>)
      requires Valid()
      modifies `events
      ensures Valid()
      ensures r.Ok? ==> Announce(old(Abstract()), p, ext, payout, indices) == Ok(Abstract())
      ensures r.Err? ==> Announce(old(Abstract()), p, ext, payout, indices) == Err(r.error)
    {
      if !FitsI128(ext.extAmount) {
        return Err(WrongExtAmount);
      }
      PublishSettlement(p, ext, payout, indices);
      return Ok(());
    }

    /** `settle` from the first payout on. */
    method PayAndAnnounce(p: Proof, ext: ExtData, payout: Option<Payout>, indices: Option<(nat, nat)>)
      returns (r: Result<(), ContractError>)
      requires Valid()
      modifies `balances, `events
      ensures Valid()
      ensures r.Ok? ==> Finish(cfg, Committed(old(Abstract()), payout, indices), p, ext) == Ok(Abstract())
      ensures r.Err? ==> Finish(cfg, Committed(old(Abstract()), payout, indices), p, ext) == Err(r.error)
    {
      if payout.Some? {
        if payout.value.recipientAmount > 0 {
          r := TokenTransfer(cfg.self, ext.recipient, payout.value.recipientAmount);
          if r.Err? {
            return;
          }
        }
        if payout.value.fee > 0 {
          r := TokenTransfer(cfg.self, cfg.feeRecipient, payout.value.fee);
          if r.Err? {
            return;
          }
        }
      }
      r := CloseCall(p, ext, payout, indices);
    }

    // ---------- Entrypoints

    /** `settle` */
    method SettleCall(call: Call, insertOutputs: bool) returns (r: Result<(), ContractError>)
      requires Valid()
      modifies this, tree
      ensures Valid()
      ensures r.Ok? ==> Settle(Env(), cfg, old(Abstract()), call, insertOutputs) == Ok(Abstract())
      ensures r.Err? ==> Settle(Env(), cfg, old(Abstract()), call, insertOutputs) == Err(r.error)
    {
      var p, ext := call.proof, call.ext;
      r := CheckBeforeCalls(p, ext);
      if r.Err? {
        return;
      }
      if call.answers.aspRoot != p.aspMembershipRoot {
        return Err(ContractError.InvalidProof);
      }
      r := VerifyProof(p, call.answers.verify);
      if r.Err? {
        return;
      }
      var payout, indices;
      r, payout, indices := CommitWrites(p, ext, insertOutputs);
      if r.Err? {
        return;
      }
      r := PayAndAnnounce(p, ext, payout, indices);
    }

    /** The amount of a deposit, within the limit and 128 bits. */
    method CheckDeposit(ext: ExtData) returns (r: Result<nat, ContractError>)
      ensures r == if ext.extAmount > cfg.maximumDeposit then Err(WrongExtAmount) else ToI128NonNegative(ext.extAmount)
    {
      if ext.extAmount > cfg.maximumDeposit {
        return Err(WrongExtAmount);
      }
      return ToI128NonNegative(ext.extAmount);
    }

    /** `transact` before the host decides whether to keep its writes. */
    method TransactBody(call: Call) returns (r: Result<(), ContractError>)
      requires Valid()
      modifies this, tree
      ensures Valid()
      ensures r.Ok? ==> Settlement.Transact(Env(), cfg, old(Abstract()), call) == Ok(Abstract())
      ensures r.Err? ==> Settlement.Transact(Env(), cfg, old(Abstract()), call) == Err(r.error)
    {
      if !call.authorized {
        return Err(Trapped(Unauthorized));
      }
      if call.ext.extAmount > 0 {
        var amount := CheckDeposit(call.ext);
        if amount.Err? {
          return Err(amount.error);
        }
        r := TokenTransfer(call.sender, cfg.self, amount.value);
        if r.Err? {
          return;
        }
      }
      r := SettleCall(call, true);
    }

    /** `exit` up to `settle`. */
    method CheckExitCall(call: Call) returns (r: Result<(), ContractError>)
      requires Valid()
      ensures r == CheckExit(Abstract(), call)
    {
      if !call.authorized {
        return Err(Trapped(Unauthorized));
      }
      var full := tree.IsFull();
      Pow2Even(tree.levels.value);
      match full {
        case Err(e) => return Err(FromMerkleError(e));
        case Ok(isFull) =>
          if !isFull {
            return Err(TreeNotFull);
          }
      }
      return if call.ext.extAmount >= 0 then Err(WrongExtAmount) else Ok(());
    }

    /** `exit` before the host decides whether to keep its writes. */
    method ExitBody(call: Call) returns (r: Result<(), ContractError>)
      requires Valid()
      modifies this, tree
      ensures Valid()
      ensures r.Ok? ==> ExitPool(Env(), cfg, old(Abstract()), call) == Ok(Abstract())
      ensures r.Err? ==> ExitPool(Env(), cfg, old(Abstract()), call) == Err(r.error)
    {
      hide Settle, CheckExit;
      r := CheckExitCall(call);
      if r.Err? {
        return;
      }
      r := SettleCall(call, false);
    }

    /** `transact`: the host keeps the writes of an accepted call and no others. */
    method Transact(call: Call) returns (r: Result<(), ContractError>)
      requires Valid()
      modifies this, tree
      ensures Valid()
      ensures r.Ok? ==> Settlement.Transact(Env(), cfg, old(Abstract()), call) == Ok(Abstract())
      ensures r.Err? ==> Settlement.Transact(Env(), cfg, old(Abstract()), call) == Err(r.error) && Abstract() == old(Abstract())
      ensures r.Err? ==> !NeverReturned(r.error)
      ensures r == Err(ContractError.Overflow) ==> call.ext.extAmount < 0 && !FitsI128(-call.ext.extAmount * cfg.feeBps)
    {
      hide Settlement.Transact, FitsI128, HoldsTree, NeverReturned;
      var saved := Snapshot();
      SnapshotHolds();
      r := TransactBody(call);
      if r.Err? {
        DeadErrors(Env(), cfg, old(Abstract()), TransactStep(call));
        Restore(saved, old(Abstract()));
      }
    }

    /** `exit`, under the same rule. */
    method Exit(call: Call) returns (r: Result<(), ContractError>)
      requires Valid()
      modifies this, tree
      ensures Valid()
      ensures r.Ok? ==> ExitPool(Env(), cfg, old(Abstract()), call) == Ok(Abstract())
      ensures r.Err? ==> ExitPool(Env(), cfg, old(Abstract()), call) == Err(r.error) && Abstract() == old(Abstract())
      ensures r.Err? ==> !NeverReturned(r.error)
      ensures r == Err(ContractError.Overflow) ==> call.ext.extAmount < 0 && !FitsI128(-call.ext.extAmount * cfg.feeBps)
    {
      hide ExitPool, FitsI128, HoldsTree, NeverReturned;
      var saved := Snapshot();
      SnapshotHolds();
      r := ExitBody(call);
      if r.Err? {
        DeadErrors(Env(), cfg, old(Abstract()), ExitStep(call));
        Restore(saved, old(Abstract()));
      }
    }

    /** `deposit`: closed. */
    method Deposit(from: Address, amount: int, commitment: nat) returns (r: Result<nat, ContractError>)
      ensures r == Err(DepositClosed)
    {
      return Err(DepositClosed);
    }
  }
}
