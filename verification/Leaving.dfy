/**
 The promise of `exit`: out of a full pool any holder can take unspent notes in
 full, two a call, exactly as long as the amount and its fee fit 128 bits.
 */
module Leaving {
  import opened Wrappers
  import opened Numbers
  import opened MerkleSpec
  import opened RootHistory
  import opened PoolTypes
  import opened Amounts
  import opened VerifierBoundary
  import opened Settlement
  import opened PoolRuns
  import opened PoolMoney
  import opened Circuit
  import opened Solvency

  /** A withdrawal made against the current root that the allowlist and the verifier accept. */
  ghost predicate WellMade(host: Host, s: State, call: Call) {
    var p, ext := call.proof, call.ext;
    && call.authorized && ext.extAmount < 0 && ProofInField(p) && !p.proof.IsEmpty()
    && p.root == Root(host.h, host.zero, s.levels, s.leaves) && p.root != 0
    && host.hashExtData(ext) == p.extDataHash && PublicAmount(ext.extAmount) == Ok(p.publicAmount)
    && call.answers.aspRoot == p.aspMembershipRoot && call.answers.verify(p.proof, PublicInputs(p)) == Ok(true)
  }

  /** An input of value names a position not spent yet; one worth nothing has a nullifier not used yet. */
  predicate Unused(s: State, b: Books, nullifier: nat, i: Input) {
    if i.amount != 0 then i.pathIndex !in b.spends else nullifier !in s.nullifiers
  }

  lemma CurrentRootIsKnown(host: Host, s: State)
    requires |s.leaves| % 2 == 0 && Root(host.h, host.zero, s.levels, s.leaves) != 0
    ensures KnownRoot(host, s, Root(host.h, host.zero, s.levels, s.leaves))
  {
    var n := |s.leaves| / 2;
    assert s.leaves[..2 * n] == s.leaves;
    assert InWindow(n, n) && RootAfter(host.h, host.zero, s.levels, s.leaves, n) == Root(host.h, host.zero, s.levels, s.leaves);
  }

  /** The nullifier of an unspent note is not stored. */
  lemma UnusedIsUnspent(h: Hashes, q: Queries, host: Host, s: State, b: Books, root: nat, nullifier: nat, member: nat, i: Input)
    requires SameHashes(h, host) && CollisionFree(h, q) && InOrder(h, q, s, b) && NullifiersExplained(h, q, s, b)
    requires PastRoot(host.h, host.zero, s.levels, s.leaves, root) && InputHolds(h, s.levels, root, nullifier, member, i)
    requires LogsTrees(q, host.h, host.zero, s.levels, s.leaves) && LogsInput(q, h, i) && (88, 76, 77, 0) in q.quads
    requires Unused(s, b, nullifier, i)
    ensures nullifier !in s.nullifiers
  {
    hide NullifiersExplained, LogsTrees;
    if i.amount != 0 {
      PathStartsAtLeaf(h, q, host, s, root, i);
      assert NoteBehindLeaf(h, q, s, b, i.pathIndex);
      SameCommitmentSameNote(h, q, InputNote(h, i), b.notes[i.pathIndex]);
      SpentMeansNullified(h, q, s, b, i.pathIndex, i.privateKey);
    }
  }

  /** Everything `exit` checks of a well-made call that spends unused inputs. */
  lemma LeaverIsChecked(h: Hashes, q: Queries, host: Host, s: State, b: Books, call: Call, w: Witness)
    requires SameHashes(h, host) && CollisionFree(h, q) && InOrder(h, q, s, b) && NullifiersExplained(h, q, s, b)
    requires WellMade(host, s, call) && |s.leaves| % 2 == 0
    requires Relation(h, s.levels, PublicInputs(call.proof), w)
    requires LogsWitness(q, h, w) && LogsTrees(q, host.h, host.zero, s.levels, s.leaves)
    requires |call.proof.inputNullifiers| == 2
    requires Unused(s, b, call.proof.inputNullifiers[0], w.in0) && Unused(s, b, call.proof.inputNullifiers[1], w.in1)
    ensures CheckStatement(host, s, call.proof, call.ext).Ok? && Justified(h, q, host, s, call, w)
  {
    hide CollisionFree, InOrder, NullifiersExplained, Relation, LogsTrees, RecentRoot, PastRoot, LogsInput;
    var p := call.proof;
    CurrentRootIsKnown(host, s);
    RecentRootIsPast(host.h, host.zero, s.levels, s.leaves, p.root);
    RelationOnProof(h, s.levels, p, w);
    UnusedIsUnspent(h, q, host, s, b, p.root, p.inputNullifiers[0], p.aspMembershipRoot, w.in0);
    UnusedIsUnspent(h, q, host, s, b, p.root, p.inputNullifiers[1], p.aspMembershipRoot, w.in1);
    assert Unspent(s.nullifiers, p.inputNullifiers);
  }

  /** A withdrawal can be planned exactly when the amount and its fee fit. */
  lemma PlanFits(cfg: Config, ext: ExtData)
    requires cfg.feeBps <= MAX_FEE_BPS && ext.extAmount < 0 && PublicAmount(ext.extAmount).Ok?
    ensures var amount: int := 0 - ext.extAmount;
            PlanPayout(cfg, ext).Ok? <==> FitsI128(amount) && FitsI128(amount * cfg.feeBps)
  {
  }

  /** From 2 basis points on, a withdrawal of 2^126 is refused for its fee. */
  lemma LargeNoteIsRefused(cfg: Config, ext: ExtData)
    requires 2 <= cfg.feeBps && ext.extAmount == 0 - TWO_127 / 2
    ensures PlanPayout(cfg, ext) == Err(ContractError.Overflow)
  {
    assert TWO_127 / 2 * cfg.feeBps >= TWO_127 / 2 * 2;
  }

  /**
   In every reachable full state, a call that spends unused inputs and keeps
   nothing back withdraws them in full, and `exit` accepts it exactly when the
   amount and the fee product fit 128 bits.
   */
  lemma {:induction false} HoldersCanLeave(h: Hashes, q: Queries, host: Host, cfg: Config, start: State, steps: seq<Step>, wits: seq<Witness>,
                                           call: Call, w: Witness)
    requires SameHashes(h, host) && CollisionFree(h, q) && Fresh(start) && cfg.feeBps <= MAX_FEE_BPS
    requires |wits| == |steps| && Sound(h, q, host, cfg, start, steps, wits)
    requires var s, b := After(host, cfg, start, steps), BooksAfter(host, cfg, start, steps, wits);
             && Full(s) && WellMade(host, s, call)
             && Relation(h, s.levels, PublicInputs(call.proof), w)
             && LogsWitness(q, h, w) && LogsTrees(q, host.h, host.zero, s.levels, s.leaves)
             && |call.proof.inputNullifiers| == 2
             && Unused(s, b, call.proof.inputNullifiers[0], w.in0) && Unused(s, b, call.proof.inputNullifiers[1], w.in1)
    requires w.out0.amount == 0 && w.out1.amount == 0
    ensures var amount := w.in0.amount + w.in1.amount;
            && call.ext.extAmount == 0 - amount
            && (ExitPool(host, cfg, After(host, cfg, start, steps), call).Ok?
                <==> FitsI128(amount) && FitsI128(amount * cfg.feeBps))
  {
    hide CollisionFree, InOrder, NullifiersExplained, Relation, LogsTrees, LogsWitness, Sound, After, BooksAfter, Outstanding;
    var s, b := After(host, cfg, start, steps), BooksAfter(host, cfg, start, steps, wits);
    ValueIsConserved(h, q, host, cfg, start, steps, wits);
    NullifiersAreExplained(h, q, host, cfg, start, steps, wits);
    LeavesAlwaysMatch(host, cfg, start, steps);
    PoolIsSolvent(h, q, host, cfg, start, steps, wits);
    LeaverIsChecked(h, q, host, s, b, call, w);
    AmountsBalance(h, q, host, s, b, call, w);
    LeaverIsPaid(host, cfg, s, call);
  }

  /** A checked and covered exit completes exactly when its payout can be planned. */
  lemma LeaverIsPaid(host: Host, cfg: Config, s: State, call: Call)
    requires cfg.feeBps <= MAX_FEE_BPS && Full(s) && WellMade(host, s, call)
    requires CheckStatement(host, s, call.proof, call.ext).Ok? && PoolBalance(cfg, s) + call.ext.extAmount >= 0
    ensures var amount: int := 0 - call.ext.extAmount;
            ExitPool(host, cfg, s, call).Ok? <==> FitsI128(amount) && FitsI128(amount * cfg.feeBps)
  {
    hide CheckStatement, FitsI128, PlanPayout, Finish;
    PlanFits(cfg, call.ext);
    CheckedIsUnspent(host, s, call);
    if PlanPayout(cfg, call.ext).Ok? {
      NoLateFailure(host, cfg, s, call, false);
    }
  }

  lemma CheckedIsUnspent(host: Host, s: State, call: Call)
    requires CheckStatement(host, s, call.proof, call.ext).Ok?
    ensures Unspent(s.nullifiers, call.proof.inputNullifiers)
  {
  }
}
