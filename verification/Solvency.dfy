/**
 Solvency: in every run whose accepted calls satisfy the circuit relation, and
 in which no two of the inputs hashed collide, the pool holds at least the
 value of every note that is still unspent.
 */
module Solvency {
  import opened Wrappers
  import opened Numbers
  import opened MerkleSpec
  import opened MerkleOpening
  import opened RootHistory
  import opened PoolTypes
  import opened Amounts
  import opened VerifierBoundary
  import opened Settlement
  import opened PoolRuns
  import opened PoolMoney
  import opened Circuit

  /**
   What the witnesses say about the tree: the note behind each leaf, every
   input of an accepted call, the positions spent so far with the key that
   spent them, and the value of the outputs that `exit` discarded.
   */
  datatype Books = Books(notes: seq<Note>, inputs: seq<Input>, spends: map<nat, nat>, forfeited: nat)

  /** The positions a witness spends; an input worth nothing spends none. */
  function AddSpend(spends: map<nat, nat>, i: Input): map<nat, nat> {
    if i.amount == 0 then spends else spends[i.pathIndex := i.privateKey]
  }

  function Enter(b: Books, w: Witness, insertOutputs: bool): Books {
    Books(if insertOutputs then b.notes + [w.out0, w.out1] else b.notes,
          b.inputs + [w.in0, w.in1],
          AddSpend(AddSpend(b.spends, w.in0), w.in1),
          if insertOutputs then b.forfeited else b.forfeited + w.out0.amount + w.out1.amount)
  }

  ghost function BooksAfter(host: Host, cfg: Config, start: State, steps: seq<Step>, wits: seq<Witness>): Books
    requires |wits| == |steps|
  {
    if steps == [] then Books([], [], map[], 0)
    else
      var n := |steps| - 1;
      var before := BooksAfter(host, cfg, start, steps[..n], wits[..n]);
      if steps[n].OutsideStep? || !Accepted(host, cfg, start, steps, n) then before
      else Enter(before, wits[n], steps[n].TransactStep?)
  }

  /** The value of the notes whose position is not spent. */
  function Outstanding(notes: seq<Note>, spends: map<nat, nat>): nat {
    if notes == [] then 0
    else
      var n := |notes| - 1;
      Outstanding(notes[..n], spends) + if n in spends then 0 else notes[n].amount
  }

  lemma {:induction false} SpendingRemovesTheNote(notes: seq<Note>, spends: map<nat, nat>, i: nat, key: nat)
    requires i < |notes| && i !in spends
    ensures Outstanding(notes, spends[i := key]) + notes[i].amount == Outstanding(notes, spends)
  {
    var n := |notes| - 1;
    if i == n {
      UnrelatedSpend(notes[..n], spends, i, key);
    } else {
      SpendingRemovesTheNote(notes[..n], spends, i, key);
    }
  }

  lemma {:induction false} UnrelatedSpend(notes: seq<Note>, spends: map<nat, nat>, i: nat, key: nat)
    requires |notes| <= i
    ensures Outstanding(notes, spends[i := key]) == Outstanding(notes, spends)
  {
    if notes != [] {
      UnrelatedSpend(notes[..|notes| - 1], spends, i, key);
    }
  }

  lemma NewNotesAreOutstanding(notes: seq<Note>, spends: map<nat, nat>, a: Note, b: Note)
    requires |notes| !in spends && |notes| + 1 !in spends
    ensures Outstanding(notes + [a, b], spends) == Outstanding(notes, spends) + a.amount + b.amount
  {
    var all := notes + [a, b];
    assert all[..|all| - 1] == notes + [a];
    assert (notes + [a])[..|notes|] == notes;
  }

  // ---------- The books agree with the pool

  /** The note behind leaf `i`. */
  ghost predicate NoteBehindLeaf(h: Hashes, q: Queries, s: State, b: Books, i: nat)
    requires i < |s.leaves| && i < |b.notes|
  {
    && s.leaves[i] == Commitment(h, b.notes[i]) && b.notes[i].amount < TWO_248
    && NoteQuery(b.notes[i]) in q.quads
  }

  /** Position `i` was spent with the key of its note, and its nullifier is stored. */
  ghost predicate SpendRecorded(h: Hashes, q: Queries, s: State, b: Books, i: nat)
    requires i in b.spends
  {
    && i < |s.leaves| && i < |b.notes|
    && PublicKey(h, b.spends[i]) == b.notes[i].publicKey
    && (b.spends[i], 0, 3) in q.triples
    && Nullifier(h, s.leaves[i], i, b.spends[i]) in s.nullifiers
  }

  ghost predicate InOrder(h: Hashes, q: Queries, s: State, b: Books) {
    && |b.notes| == |s.leaves|
    && (forall i: nat :: i < |s.leaves| ==> NoteBehindLeaf(h, q, s, b, i))
    && (forall i: nat :: i in b.spends ==> SpendRecorded(h, q, s, b, i))
  }

  /** The tree's hash and zero leaf are the circuit's. */
  ghost predicate SameHashes(h: Hashes, host: Host) {
    host.h == h.compress && host.zero == ZeroLeaf(h)
  }

  /** A path to a root the pool ever had starts at an inserted leaf. */
  lemma PathStartsAtLeaf(h: Hashes, q: Queries, host: Host, s: State, root: nat, i: Input)
    requires SameHashes(h, host) && CollisionFree(h, q) && PastRoot(host.h, host.zero, s.levels, s.leaves, root)
    requires LogsTrees(q, host.h, host.zero, s.levels, s.leaves) && LogsInput(q, h, i) && (88, 76, 77, 0) in q.quads
    requires |i.siblings| == s.levels && i.pathIndex < Pow2(s.levels)
    requires PathHash(h.compress, Commitment(h, InputNote(h, i)), i.pathIndex, i.siblings, s.levels) == root
    ensures i.pathIndex < |s.leaves| && s.leaves[i.pathIndex] == Commitment(h, InputNote(h, i))
  {
    var leaf := Commitment(h, InputNote(h, i));
    var k := PastRootOpensToItsPrefix(host.h, host.zero, s.levels, s.leaves, root);
    assert leaf == LeafAt(host.zero, s.leaves[..2 * k], i.pathIndex);
    NoteIsNotZeroLeaf(h, q, InputNote(h, i));
  }

  /** An input of value spends a note of the tree, in full, that was not spent before. */
  lemma InputSpendsUnspentNote(h: Hashes, q: Queries, host: Host, s: State, b: Books, root: nat, nullifier: nat, member: nat, i: Input)
    requires SameHashes(h, host) && CollisionFree(h, q) && InOrder(h, q, s, b)
    requires PastRoot(host.h, host.zero, s.levels, s.leaves, root) && InputHolds(h, s.levels, root, nullifier, member, i) && i.amount != 0
    requires LogsTrees(q, host.h, host.zero, s.levels, s.leaves) && LogsInput(q, h, i) && (88, 76, 77, 0) in q.quads
    requires nullifier !in s.nullifiers
    ensures i.pathIndex < |b.notes| && b.notes[i.pathIndex] == InputNote(h, i) && i.pathIndex !in b.spends
    ensures nullifier == Nullifier(h, s.leaves[i.pathIndex], i.pathIndex, i.privateKey)
  {
    PathStartsAtLeaf(h, q, host, s, root, i);
    var at := i.pathIndex;
    assert NoteBehindLeaf(h, q, s, b, at);
    SameCommitmentSameNote(h, q, InputNote(h, i), b.notes[at]);
    if at in b.spends {
      assert SpendRecorded(h, q, s, b, at);
      SameKeySameSecret(h, q, b.spends[at], i.privateKey);
      assert false;
    }
  }

  /** Both inputs of an accepted call, together: distinct positions, amounts below 2^248. */
  ghost predicate GoodInputs(h: Hashes, b: Books, w: Witness) {
    && (w.in0.amount != 0 ==>
          w.in0.pathIndex < |b.notes| && b.notes[w.in0.pathIndex] == InputNote(h, w.in0) && w.in0.pathIndex !in b.spends)
    && (w.in1.amount != 0 ==>
          w.in1.pathIndex < |b.notes| && b.notes[w.in1.pathIndex] == InputNote(h, w.in1) && w.in1.pathIndex !in b.spends)
    && (w.in0.amount != 0 && w.in1.amount != 0 ==> w.in0.pathIndex != w.in1.pathIndex)
    && w.in0.amount < TWO_248 && w.in1.amount < TWO_248
  }

  /** What an accepted call and its witness satisfy. */
  ghost predicate Justified(h: Hashes, q: Queries, host: Host, s: State, call: Call, w: Witness) {
    && PastRoot(host.h, host.zero, s.levels, s.leaves, call.proof.root) && Unspent(s.nullifiers, call.proof.inputNullifiers)
    && PublicAmount(call.ext.extAmount) == Ok(call.proof.publicAmount)
    && Relation(h, s.levels, PublicInputs(call.proof), w)
    && LogsWitness(q, h, w) && LogsTrees(q, host.h, host.zero, s.levels, s.leaves)
  }

  lemma InputsAreGood(h: Hashes, q: Queries, host: Host, s: State, b: Books, call: Call, w: Witness)
    requires SameHashes(h, host) && CollisionFree(h, q) && InOrder(h, q, s, b) && Justified(h, q, host, s, call, w)
    ensures GoodInputs(h, b, w)
  {
    var p := call.proof;
    RelationOnProof(h, s.levels, p, w);
    if w.in0.amount != 0 {
      InputSpendsUnspentNote(h, q, host, s, b, p.root, p.inputNullifiers[0], p.aspMembershipRoot, w.in0);
      assert NoteBehindLeaf(h, q, s, b, w.in0.pathIndex);
    }
    if w.in1.amount != 0 {
      InputSpendsUnspentNote(h, q, host, s, b, p.root, p.inputNullifiers[1], p.aspMembershipRoot, w.in1);
      assert NoteBehindLeaf(h, q, s, b, w.in1.pathIndex);
    }
    if w.in0.amount != 0 && w.in1.amount != 0 && w.in0.pathIndex == w.in1.pathIndex {
      SameKeySameSecret(h, q, w.in0.privateKey, w.in1.privateKey);
      assert false;
    }
  }

  /** The inputs are covered by outstanding notes, and leave the books by exactly their value. */
  lemma SpendingTheInputs(h: Hashes, b: Books, w: Witness)
    requires GoodInputs(h, b, w)
    ensures Outstanding(b.notes, AddSpend(AddSpend(b.spends, w.in0), w.in1)) + w.in0.amount + w.in1.amount
            == Outstanding(b.notes, b.spends)
  {
    var first := AddSpend(b.spends, w.in0);
    if w.in0.amount != 0 {
      SpendingRemovesTheNote(b.notes, b.spends, w.in0.pathIndex, w.in0.privateKey);
    }
    if w.in1.amount != 0 {
      SpendingRemovesTheNote(b.notes, first, w.in1.pathIndex, w.in1.privateKey);
    }
  }

  /** A call's inputs, outputs and external amount balance in the integers. */
  lemma AmountsBalance(h: Hashes, q: Queries, host: Host, s: State, b: Books, call: Call, w: Witness)
    requires SameHashes(h, host) && CollisionFree(h, q) && InOrder(h, q, s, b) && Justified(h, q, host, s, call, w)
    ensures w.in0.amount + w.in1.amount + call.ext.extAmount == w.out0.amount + w.out1.amount
    ensures -call.ext.extAmount <= Outstanding(b.notes, b.spends)
  {
    hide CollisionFree, InOrder, Outstanding;
    InputsAreGood(h, q, host, s, b, call, w);
    RelationOnProof(h, s.levels, call.proof, w);
    BalanceLifts(w.in0.amount, w.in1.amount, w.out0.amount, w.out1.amount, call.ext.extAmount);
    SpendingTheInputs(h, b, w);
  }

  // ---------- One accepted call

  /** An accepted call moves the books by its external amount. */
  lemma ValueFollowsTheCall(h: Hashes, q: Queries, host: Host, s: State, b: Books, call: Call, w: Witness, insertOutputs: bool)
    requires SameHashes(h, host) && CollisionFree(h, q) && InOrder(h, q, s, b) && Justified(h, q, host, s, call, w)
    ensures var b' := Enter(b, w, insertOutputs);
            Outstanding(b'.notes, b'.spends) + b'.forfeited
            == Outstanding(b.notes, b.spends) + b.forfeited + call.ext.extAmount
  {
    hide CollisionFree, Justified, Outstanding;
    AmountsBalance(h, q, host, s, b, call, w);
    InputsAreGood(h, q, host, s, b, call, w);
    SpendingTheInputs(h, b, w);
    var spends := AddSpend(AddSpend(b.spends, w.in0), w.in1);
    if insertOutputs {
      assert forall i: nat :: i in spends ==> i < |b.notes| by {
        forall i: nat | i in spends
          ensures i < |b.notes|
        {
          assert i in b.spends ==> SpendRecorded(h, q, s, b, i);
        }
      }
      NewNotesAreOutstanding(b.notes, spends, w.out0, w.out1);
    }
  }

  lemma BooksStayInOrder(h: Hashes, q: Queries, host: Host, s: State, s': State, b: Books, call: Call, w: Witness, insertOutputs: bool)
    requires SameHashes(h, host) && CollisionFree(h, q) && InOrder(h, q, s, b) && Justified(h, q, host, s, call, w)
    requires s'.nullifiers == s.nullifiers + Elements(call.proof.inputNullifiers)
    requires s'.leaves == s.leaves + if insertOutputs then [call.proof.outputCommitment0, call.proof.outputCommitment1] else []
    ensures InOrder(h, q, s', Enter(b, w, insertOutputs))
  {
    var p := call.proof;
    var b' := Enter(b, w, insertOutputs);
    InputsAreGood(h, q, host, s, b, call, w);
    RelationOnProof(h, s.levels, p, w);
    forall i: nat | i < |s'.leaves|
      ensures NoteBehindLeaf(h, q, s', b', i)
    {
      assert i < |s.leaves| ==> NoteBehindLeaf(h, q, s, b, i);
    }
    forall i: nat | i in b'.spends
      ensures SpendRecorded(h, q, s', b', i)
    {
      SpendStaysRecorded(h, q, host, s, s', b, call, w, insertOutputs, i);
    }
  }

  lemma SpendStaysRecorded(h: Hashes, q: Queries, host: Host, s: State, s': State, b: Books, call: Call, w: Witness, insertOutputs: bool, i: nat)
    requires SameHashes(h, host) && CollisionFree(h, q) && InOrder(h, q, s, b) && Justified(h, q, host, s, call, w)
    requires GoodInputs(h, b, w)
    requires s'.nullifiers == s.nullifiers + Elements(call.proof.inputNullifiers)
    requires s'.leaves == s.leaves + if insertOutputs then [call.proof.outputCommitment0, call.proof.outputCommitment1] else []
    requires i in Enter(b, w, insertOutputs).spends
    ensures SpendRecorded(h, q, s', Enter(b, w, insertOutputs), i)
  {
    var p := call.proof;
    RelationOnProof(h, s.levels, p, w);
    assert p.inputNullifiers[0] in s'.nullifiers && p.inputNullifiers[1] in s'.nullifiers;
    if w.in1.amount != 0 && i == w.in1.pathIndex {
      assert NoteBehindLeaf(h, q, s, b, i);
    } else if w.in0.amount != 0 && i == w.in0.pathIndex {
      assert NoteBehindLeaf(h, q, s, b, i);
    } else {
      assert SpendRecorded(h, q, s, b, i);
    }
  }

  // ---------- Runs

  /**
   A run in which every accepted call has a witness for the circuit relation,
   the log holds everything hashed, and the pool never signs a call to itself.
   */
  ghost predicate Sound(h: Hashes, q: Queries, host: Host, cfg: Config, start: State, steps: seq<Step>, wits: seq<Witness>)
    requires |wits| == |steps|
  {
    steps != [] ==>
      var n := |steps| - 1;
      var s := After(host, cfg, start, steps[..n]);
      && Sound(h, q, host, cfg, start, steps[..n], wits[..n])
      && NotSelfSent(cfg, steps[n])
      && (!steps[n].OutsideStep? && Accepted(host, cfg, start, steps, n) ==>
            && Relation(h, s.levels, PublicInputs(steps[n].call.proof), wits[n])
            && LogsWitness(q, h, wits[n])
            && LogsTrees(q, host.h, host.zero, s.levels, s.leaves))
  }

  /** An accepted call of a sound run is justified, and moves the tree as its entrypoint says. */
  lemma AcceptedIsJustified(h: Hashes, q: Queries, host: Host, cfg: Config, s: State, step: Step, w: Witness)
    requires !step.OutsideStep? && Execute(host, cfg, s, step).Ok?
    requires Relation(h, s.levels, PublicInputs(step.call.proof), w)
    requires LogsWitness(q, h, w) && LogsTrees(q, host.h, host.zero, s.levels, s.leaves)
    ensures Justified(h, q, host, s, step.call, w)
    ensures var s', p := Next(host, cfg, s, step), step.call.proof;
            && s'.nullifiers == s.nullifiers + Elements(p.inputNullifiers)
            && s'.leaves == s.leaves + if step.TransactStep? then [p.outputCommitment0, p.outputCommitment1] else []
  {
    if step.TransactStep? {
      TransactEffect(host, cfg, s, step.call);
    } else {
      ExitEffect(host, cfg, s, step.call);
    }
    RecentRootIsPast(host.h, host.zero, s.levels, s.leaves, step.call.proof.root);
  }

  lemma StepKeepsBooks(h: Hashes, q: Queries, host: Host, cfg: Config, s: State, b: Books, step: Step, w: Witness)
    requires SameHashes(h, host) && CollisionFree(h, q) && InOrder(h, q, s, b)
    requires !step.OutsideStep? && Execute(host, cfg, s, step).Ok?
    requires Relation(h, s.levels, PublicInputs(step.call.proof), w)
    requires LogsWitness(q, h, w) && LogsTrees(q, host.h, host.zero, s.levels, s.leaves)
    ensures var b' := Enter(b, w, step.TransactStep?);
            && InOrder(h, q, Next(host, cfg, s, step), b')
            && Outstanding(b'.notes, b'.spends) + b'.forfeited
               == Outstanding(b.notes, b.spends) + b.forfeited + Flow(cfg, step)
  {
    AcceptedIsJustified(h, q, host, cfg, s, step, w);
    BooksStayInOrder(h, q, host, s, Next(host, cfg, s, step), b, step.call, w, step.TransactStep?);
    ValueFollowsTheCall(h, q, host, s, b, step.call, w, step.TransactStep?);
  }

  /** An outside transfer leaves the pool's storage alone. */
  lemma OutsideKeepsBooks(h: Hashes, q: Queries, host: Host, cfg: Config, s: State, b: Books, step: Step)
    requires InOrder(h, q, s, b) && step.OutsideStep?
    ensures InOrder(h, q, Next(host, cfg, s, step), b)
  {
    var s' := Next(host, cfg, s, step);
    assert s'.leaves == s.leaves && s'.nullifiers == s.nullifiers;
    forall i: nat | i < |s'.leaves|
      ensures NoteBehindLeaf(h, q, s', b, i)
    {
      assert NoteBehindLeaf(h, q, s, b, i);
    }
    forall i: nat | i in b.spends
      ensures SpendRecorded(h, q, s', b, i)
    {
      assert SpendRecorded(h, q, s, b, i);
    }
  }

  /** What outside transfers put into the pool. */
  ghost function Donated(host: Host, cfg: Config, start: State, steps: seq<Step>): nat {
    if steps == [] then 0
    else
      var n := |steps| - 1;
      Donated(host, cfg, start, steps[..n]) +
      if steps[n].OutsideStep? && Accepted(host, cfg, start, steps, n) then Flow(cfg, steps[n]) else 0
  }

  /**
   Conservation: the value of all unspent notes, plus what exits discarded, plus
   what was given to the pool, is exactly what flowed through it.
   */
  lemma {:induction false} ValueIsConserved(h: Hashes, q: Queries, host: Host, cfg: Config, start: State, steps: seq<Step>, wits: seq<Witness>)
    requires SameHashes(h, host) && CollisionFree(h, q) && Fresh(start)
    requires |wits| == |steps| && Sound(h, q, host, cfg, start, steps, wits)
    ensures var b := BooksAfter(host, cfg, start, steps, wits);
            && InOrder(h, q, After(host, cfg, start, steps), b)
            && Outstanding(b.notes, b.spends) + b.forfeited + Donated(host, cfg, start, steps)
               == TotalFlow(host, cfg, start, steps)
  {
    if steps != [] {
      var n := |steps| - 1;
      ValueIsConserved(h, q, host, cfg, start, steps[..n], wits[..n]);
      var s := After(host, cfg, start, steps[..n]);
      var b := BooksAfter(host, cfg, start, steps[..n], wits[..n]);
      if steps[n].OutsideStep? {
        OutsideKeepsBooks(h, q, host, cfg, s, b, steps[n]);
      } else if Accepted(host, cfg, start, steps, n) {
        StepKeepsBooks(h, q, host, cfg, s, b, steps[n], wits[n]);
      }
    }
  }

  /** The pool holds at least what flowed through it, even if it paid itself. */
  lemma {:induction false} BalanceCoversFlow(h: Hashes, q: Queries, host: Host, cfg: Config, start: State, steps: seq<Step>, wits: seq<Witness>)
    requires cfg.feeBps <= MAX_FEE_BPS
    requires |wits| == |steps| && Sound(h, q, host, cfg, start, steps, wits)
    ensures PoolBalance(cfg, After(host, cfg, start, steps))
            >= PoolBalance(cfg, start) + TotalFlow(host, cfg, start, steps)
  {
    if steps != [] {
      var n := |steps| - 1;
      BalanceCoversFlow(h, q, host, cfg, start, steps[..n], wits[..n]);
      if Accepted(host, cfg, start, steps, n) {
        StepBalance(host, cfg, After(host, cfg, start, steps[..n]), steps[n]);
      }
    }
  }

  /** The pool can pay every unspent note in every reachable state. */
  lemma {:induction false} PoolIsSolvent(h: Hashes, q: Queries, host: Host, cfg: Config, start: State, steps: seq<Step>, wits: seq<Witness>)
    requires SameHashes(h, host) && CollisionFree(h, q) && Fresh(start) && cfg.feeBps <= MAX_FEE_BPS
    requires |wits| == |steps| && Sound(h, q, host, cfg, start, steps, wits)
    ensures var b := BooksAfter(host, cfg, start, steps, wits);
            PoolBalance(cfg, After(host, cfg, start, steps)) >= Outstanding(b.notes, b.spends)
  {
    ValueIsConserved(h, q, host, cfg, start, steps, wits);
    BalanceCoversFlow(h, q, host, cfg, start, steps, wits);
  }

  /** With payouts only to others, the balance is accounted for to the last unit. */
  lemma {:induction false} BalanceIsAccountedFor(h: Hashes, q: Queries, host: Host, cfg: Config, start: State, steps: seq<Step>, wits: seq<Witness>)
    requires SameHashes(h, host) && CollisionFree(h, q) && Fresh(start) && cfg.feeBps <= MAX_FEE_BPS
    requires |wits| == |steps| && Sound(h, q, host, cfg, start, steps, wits)
    requires forall i :: 0 <= i < |steps| ==> NotSelfSent(cfg, steps[i]) && PaysOthers(cfg, steps[i])
    ensures var b := BooksAfter(host, cfg, start, steps, wits);
            PoolBalance(cfg, After(host, cfg, start, steps))
            == PoolBalance(cfg, start) + Donated(host, cfg, start, steps) + Outstanding(b.notes, b.spends) + b.forfeited
  {
    ValueIsConserved(h, q, host, cfg, start, steps, wits);
    BalanceIsTotalFlow(host, cfg, start, steps);
  }

  /** A call that reaches its payout in a sound run is never short of tokens. */
  lemma {:induction false} PayoutsAreCovered(h: Hashes, q: Queries, host: Host, cfg: Config, start: State, steps: seq<Step>, wits: seq<Witness>,
                                             call: Call, w: Witness, insertOutputs: bool)
    requires SameHashes(h, host) && CollisionFree(h, q) && Fresh(start) && cfg.feeBps <= MAX_FEE_BPS
    requires |wits| == |steps| && Sound(h, q, host, cfg, start, steps, wits)
    requires var s := After(host, cfg, start, steps);
             && LogsWitness(q, h, w) && LogsTrees(q, host.h, host.zero, s.levels, s.leaves)
             && Relation(h, s.levels, PublicInputs(call.proof), w)
             && ReachesPayout(host, cfg, s, call, insertOutputs)
    ensures Settle(host, cfg, Deposited(cfg, After(host, cfg, start, steps), call, insertOutputs), call, insertOutputs).Ok?
  {
    var s := After(host, cfg, start, steps);
    var s1 := Deposited(cfg, s, call, insertOutputs);
    PoolIsSolvent(h, q, host, cfg, start, steps, wits);
    ValueIsConserved(h, q, host, cfg, start, steps, wits);
    PayoutIsCovered(h, q, host, cfg, s, BooksAfter(host, cfg, start, steps, wits), call, w, insertOutputs);
  }

  /** The state `settle` starts from: after the deposit, if there is one. */
  function Deposited(cfg: Config, s: State, call: Call, insertOutputs: bool): State {
    if insertOutputs && TakeDeposit(cfg, s, call).Ok? then TakeDeposit(cfg, s, call).value else s
  }

  /** Every check passed and every write of the pool's own was made. */
  ghost predicate ReachesPayout(host: Host, cfg: Config, s: State, call: Call, insertOutputs: bool) {
    var s1 := Deposited(cfg, s, call, insertOutputs);
    && (if insertOutputs then TakeDeposit(cfg, s, call).Ok? else CheckExit(s, call).Ok?)
    && CheckStatement(host, s1, call.proof, call.ext).Ok?
    && CheckAllowlist(call.proof, call.answers.aspRoot).Ok?
    && CheckProof(call.proof, call.answers.verify).Ok?
    && Commit(cfg, s1, call.proof, call.ext, insertOutputs).Ok?
  }

  lemma PayoutIsCovered(h: Hashes, q: Queries, host: Host, cfg: Config, s: State, b: Books, call: Call, w: Witness, insertOutputs: bool)
    requires SameHashes(h, host) && CollisionFree(h, q) && cfg.feeBps <= MAX_FEE_BPS
    requires InOrder(h, q, s, b) && PoolBalance(cfg, s) >= Outstanding(b.notes, b.spends)
    requires Relation(h, s.levels, PublicInputs(call.proof), w)
    requires LogsWitness(q, h, w) && LogsTrees(q, host.h, host.zero, s.levels, s.leaves)
    requires ReachesPayout(host, cfg, s, call, insertOutputs)
    ensures Settle(host, cfg, Deposited(cfg, s, call, insertOutputs), call, insertOutputs).Ok?
  {
    if call.ext.extAmount < 0 {
      RecentRootIsPast(host.h, host.zero, s.levels, s.leaves, call.proof.root);
      assert Justified(h, q, host, s, call, w);
      AmountsBalance(h, q, host, s, b, call, w);
    }
    NoLateFailure(host, cfg, s, call, insertOutputs);
  }

  // ---------- Spent positions and stored nullifiers

  /** Input `j` was logged, its nullifier is stored and its position, if it had value, is spent. */
  ghost predicate InputRecorded(h: Hashes, q: Queries, b: Books, j: nat)
    requires j < |b.inputs|
  {
    && LogsInput(q, h, b.inputs[j])
    && (b.inputs[j].amount != 0 ==> b.inputs[j].pathIndex in b.spends)
  }

  function InputNullifier(h: Hashes, i: Input): nat {
    Nullifier(h, Commitment(h, InputNote(h, i)), i.pathIndex, i.privateKey)
  }

  /** Every stored nullifier is that of an input of an accepted call. */
  ghost predicate NullifiersExplained(h: Hashes, q: Queries, s: State, b: Books) {
    && (forall j: nat :: j < |b.inputs| ==> InputRecorded(h, q, b, j))
    && (forall n :: n in s.nullifiers ==> exists j: nat :: j < |b.inputs| && n == InputNullifier(h, b.inputs[j]))
  }

  lemma CallKeepsNullifiersExplained(h: Hashes, q: Queries, s: State, s': State, b: Books, p: Proof, w: Witness, insertOutputs: bool)
    requires NullifiersExplained(h, q, s, b) && LogsWitness(q, h, w)
    requires Relation(h, s.levels, PublicInputs(p), w)
    requires s'.nullifiers == s.nullifiers + Elements(p.inputNullifiers)
    ensures NullifiersExplained(h, q, s', Enter(b, w, insertOutputs))
  {
    var b' := Enter(b, w, insertOutputs);
    RelationOnProof(h, s.levels, p, w);
    var n := |b.inputs|;
    assert b'.inputs[n] == w.in0 && b'.inputs[n + 1] == w.in1;
    forall j: nat | j < |b'.inputs|
      ensures InputRecorded(h, q, b', j)
    {
      assert j < n ==> InputRecorded(h, q, b, j);
    }
    forall x | x in s'.nullifiers
      ensures exists j: nat :: j < |b'.inputs| && x == InputNullifier(h, b'.inputs[j])
    {
      if x in s.nullifiers {
        var j: nat :| j < |b.inputs| && x == InputNullifier(h, b.inputs[j]);
        assert b'.inputs[j] == b.inputs[j];
      } else {
        assert x == InputNullifier(h, b'.inputs[n]) || x == InputNullifier(h, b'.inputs[n + 1]);
      }
    }
  }

  lemma {:induction false} NullifiersAreExplained(h: Hashes, q: Queries, host: Host, cfg: Config, start: State, steps: seq<Step>, wits: seq<Witness>)
    requires Fresh(start) && |wits| == |steps| && Sound(h, q, host, cfg, start, steps, wits)
    ensures NullifiersExplained(h, q, After(host, cfg, start, steps), BooksAfter(host, cfg, start, steps, wits))
  {
    if steps != [] {
      var n := |steps| - 1;
      NullifiersAreExplained(h, q, host, cfg, start, steps[..n], wits[..n]);
      var s := After(host, cfg, start, steps[..n]);
      var b := BooksAfter(host, cfg, start, steps[..n], wits[..n]);
      if !steps[n].OutsideStep? && Accepted(host, cfg, start, steps, n) {
        AcceptedIsJustified(h, q, host, cfg, s, steps[n], wits[n]);
        CallKeepsNullifiersExplained(h, q, s, Next(host, cfg, s, steps[n]), b, steps[n].call.proof, wits[n], steps[n].TransactStep?);
      }
    }
  }

  /** A note of value is spent exactly when its nullifier, under its owner's key, is stored. */
  lemma SpentMeansNullified(h: Hashes, q: Queries, s: State, b: Books, i: nat, key: nat)
    requires CollisionFree(h, q) && InOrder(h, q, s, b) && NullifiersExplained(h, q, s, b)
    requires i < |b.notes| && b.notes[i].amount != 0
    requires PublicKey(h, key) == b.notes[i].publicKey && (key, 0, 3) in q.triples
    requires LogsNullifier(q, h, s.leaves[i], i, key)
    ensures i in b.spends <==> Nullifier(h, s.leaves[i], i, key) in s.nullifiers
  {
    assert NoteBehindLeaf(h, q, s, b, i);
    if i in b.spends {
      assert SpendRecorded(h, q, s, b, i);
      SameKeySameSecret(h, q, key, b.spends[i]);
    }
    var n := Nullifier(h, s.leaves[i], i, key);
    if n in s.nullifiers {
      var j: nat :| j < |b.inputs| && n == InputNullifier(h, b.inputs[j]);
      assert InputRecorded(h, q, b, j);
      var input := b.inputs[j];
      SameNullifierSameSpend(h, q, s.leaves[i], i, key, Commitment(h, InputNote(h, input)), input.pathIndex, input.privateKey);
      SameCommitmentSameNote(h, q, b.notes[i], InputNote(h, input));
    }
  }
}
