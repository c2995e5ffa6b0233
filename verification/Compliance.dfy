/** The gate between the two contracts: only enrolled keys spend. */
module Compliance {
  import opened MerkleSpec
  import opened MerkleOpening
  import opened PoolTypes
  import opened VerifierBoundary
  import opened Settlement
  import opened PoolRuns
  import opened Circuit
  import Allowlist

  /** The leaf an input proves membership with. */
  function InputMember(h: Hashes, i: Input): nat {
    MemberLeaf(h, PublicKey(h, i.privateKey), i.memberBlinding)
  }

  ghost predicate LogsMember(q: Queries, h: Hashes, i: Input) {
    forall l: nat {:trigger PathPair(h.compress, InputMember(h, i), i.memberIndex, i.memberSiblings, l)} ::
      l < |i.memberSiblings| ==> PathPair(h.compress, InputMember(h, i), i.memberIndex, i.memberSiblings, l) in q.pairs
  }

  /** A membership path to the root of a tree starts at one of its leaves, or at the padding. */
  lemma MemberIsALeaf(h: Hashes, q: Queries, zero: nat, levels: nat, leaves: seq<nat>, root: nat, nullifier: nat, i: Input)
    requires CollisionFree(h, q) && LogsTrees(q, h.compress, zero, levels, leaves) && LogsMember(q, h, i)
    requires InputHolds(h, levels, root, nullifier, Root(h.compress, zero, levels, leaves), i)
    ensures InputMember(h, i) == LeafAt(zero, leaves, i.memberIndex)
  {
    assert leaves[..|leaves|] == leaves;
    ShrToRoot(i.memberIndex, levels);
    OpeningIsSound(h.compress, zero, leaves, InputMember(h, i), i.memberIndex, i.memberSiblings, levels);
  }

  /**
   While the allowlist keeps its own tree, every accepted call spends with keys
   the allowlist accepted: after any run of the allowlist, if the pool reads its
   root and takes the call, both spenders' leaves are among those inserted, or
   hash to the zero leaf that pads the tree.
   */
  lemma SpendersAreEnrolled(h: Hashes, q: Queries, host: Host, cfg: Config, s: State, step: Step, w: Witness,
                            zero: nat, calls: seq<Allowlist.Call>)
    requires !step.OutsideStep? && Execute(host, cfg, s, step).Ok?
    requires Relation(h, s.levels, PublicInputs(step.call.proof), w)
    requires var start := Allowlist.Initial(h.compress, zero, s.levels);
             var list := Allowlist.After(h.compress, zero, start, calls);
             && step.call.answers.aspRoot == list.root && !list.operatorMaintained
             && LogsTrees(q, h.compress, zero, s.levels, list.leaves)
    requires CollisionFree(h, q) && LogsMember(q, h, w.in0) && LogsMember(q, h, w.in1)
    ensures var enrolled := Allowlist.Inserted(h.compress, zero, Allowlist.Initial(h.compress, zero, s.levels), calls);
            && (InputMember(h, w.in0) in enrolled || InputMember(h, w.in0) == zero)
            && (InputMember(h, w.in1) in enrolled || InputMember(h, w.in1) == zero)
  {
    var start := Allowlist.Initial(h.compress, zero, s.levels);
    var list := Allowlist.After(h.compress, zero, start, calls);
    Allowlist.RootOverRuns(h.compress, zero, s.levels, calls);
    if step.TransactStep? {
      TransactEffect(host, cfg, s, step.call);
    } else {
      ExitEffect(host, cfg, s, step.call);
    }
    var p := step.call.proof;
    RelationOnProof(h, s.levels, p, w);
    MemberIsALeaf(h, q, zero, s.levels, list.leaves, p.root, p.inputNullifiers[0], w.in0);
    MemberIsALeaf(h, q, zero, s.levels, list.leaves, p.root, p.inputNullifiers[1], w.in1);
  }
}
