/** `VerifierPublicInputs`: the order and number of values handed to the verifier. */
module VerifierBoundary {
  import opened PoolTypes

  function Repeat(x: nat, n: nat): (s: seq<nat>)
    ensures |s| == n && forall i :: 0 <= i < n ==> s[i] == x
  {
    seq(n, _ => x)
  }

  /** Root, amount, external hash, nullifiers, commitments, one allowlist root per nullifier. */
  function PublicInputs(p: Proof): seq<nat> {
    [p.root, p.publicAmount, p.extDataHash] + p.inputNullifiers + [p.outputCommitment0, p.outputCommitment1]
    + Repeat(p.aspMembershipRoot, |p.inputNullifiers|)
  }

  /** `from_proof` */
  method FromProof(p: Proof) returns (values: seq<nat>)
    ensures values == PublicInputs(p)
  {
    values := [];
    values := values + [p.root];
    values := values + [p.publicAmount];
    values := values + [p.extDataHash];
    var i := 0;
    while i < |p.inputNullifiers|
      invariant 0 <= i <= |p.inputNullifiers|
      invariant values == [p.root, p.publicAmount, p.extDataHash] + p.inputNullifiers[..i]
    {
      values := values + [p.inputNullifiers[i]];
      i := i + 1;
    }
    values := values + [p.outputCommitment0];
    values := values + [p.outputCommitment1];
    ghost var head := [p.root, p.publicAmount, p.extDataHash] + p.inputNullifiers + [p.outputCommitment0, p.outputCommitment1];
    i := 0;
    while i < |p.inputNullifiers|
      invariant 0 <= i <= |p.inputNullifiers|
      invariant values == head + Repeat(p.aspMembershipRoot, i)
    {
      values := values + [p.aspMembershipRoot];
      i := i + 1;
    }
  }

  /** Equal up to the proof points and, with no nullifier, the allowlist root. */
  predicate SameStatement(p: Proof, q: Proof) {
    && p.root == q.root && p.publicAmount == q.publicAmount && p.extDataHash == q.extDataHash
    && p.inputNullifiers == q.inputNullifiers
    && p.outputCommitment0 == q.outputCommitment0 && p.outputCommitment1 == q.outputCommitment1
    && (p.inputNullifiers != [] ==> p.aspMembershipRoot == q.aspMembershipRoot)
  }

  lemma PublicInputsAt(p: Proof)
    ensures var v, n := PublicInputs(p), |p.inputNullifiers|;
            && |v| == 5 + 2 * n
            && v[0] == p.root && v[1] == p.publicAmount && v[2] == p.extDataHash
            && v[3..3 + n] == p.inputNullifiers
            && v[3 + n] == p.outputCommitment0 && v[4 + n] == p.outputCommitment1
            && forall i :: 5 + n <= i < 5 + 2 * n ==> v[i] == p.aspMembershipRoot
  {
  }

  /**
   The values determine the statement: two proofs give the verifier the same
   inputs exactly when they agree on every field, except that a proof without
   nullifiers leaves the allowlist root out.
   */
  lemma PublicInputsBindTheStatement(p: Proof, q: Proof)
    ensures PublicInputs(p) == PublicInputs(q) <==> SameStatement(p, q)
  {
    PublicInputsAt(p);
    PublicInputsAt(q);
    if PublicInputs(p) == PublicInputs(q) {
      var v, n := PublicInputs(p), |p.inputNullifiers|;
      assert |q.inputNullifiers| == n;
      assert p.inputNullifiers == v[3..3 + n] == q.inputNullifiers;
      if n > 0 {
        assert v[5 + n] == p.aspMembershipRoot == q.aspMembershipRoot;
      }
    }
    if SameStatement(p, q) && p.inputNullifiers == [] {
      assert Repeat(p.aspMembershipRoot, 0) == Repeat(q.aspMembershipRoot, 0);
    }
  }

  /** Two proofs without nullifiers and with different allowlist roots give the verifier the same inputs. */
  lemma AllowlistRootUnbound(p: Proof)
    requires p.inputNullifiers == []
    ensures var q := p.(aspMembershipRoot := p.aspMembershipRoot + 1);
            q != p && PublicInputs(p) == PublicInputs(q)
  {
    PublicInputsBindTheStatement(p, p.(aspMembershipRoot := p.aspMembershipRoot + 1));
  }
}
