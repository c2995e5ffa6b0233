/**
 Who gets onto the allowlist, told from the calls alone: which insertions count,
 in which mode, until when, and what the log says of them.
 */
module Enrolment {
  import opened Numbers
  import opened MerkleSpec
  import opened Allowlist

  /** The insertion mode: admin only, until the admin says otherwise. */
  function AdminOnly(calls: seq<Call>): bool {
    if calls == [] then true
    else
      var last := calls[|calls| - 1];
      if last.SetAdminInsertOnly? && last.byAdmin then last.adminOnly else AdminOnly(calls[..|calls| - 1])
  }

  /** A revocation by the admin, with field elements. */
  predicate IsHandover(call: Call) {
    call.RevokeLeaf? && call.byAdmin && InField(call.leaf) && InField(call.newRoot)
  }

  predicate HandedOver(calls: seq<Call>) {
    exists i :: 0 <= i < |calls| && IsHandover(calls[i])
  }

  /** The last call is an insertion by the admin, or by anyone while the admin lets anyone insert. */
  predicate Allowed(calls: seq<Call>)
    requires calls != []
  {
    var before, last := calls[..|calls| - 1], calls[|calls| - 1];
    && last.InsertLeaf? && InField(last.leaf)
    && (last.byAdmin || !AdminOnly(before)) && !HandedOver(before)
  }

  /** The leaves these calls enroll: the allowed insertions, in order, while there is room. */
  function Enrolled(levels: nat, calls: seq<Call>): seq<nat> {
    if calls == [] then []
    else
      var before := Enrolled(levels, calls[..|calls| - 1]);
      if Allowed(calls) && |before| < Pow2(levels) then before + [calls[|calls| - 1].leaf] else before
  }

  lemma {:induction false} HandedOverStep(calls: seq<Call>)
    requires calls != []
    ensures HandedOver(calls) <==> HandedOver(calls[..|calls| - 1]) || IsHandover(calls[|calls| - 1])
  {
    var n := |calls| - 1;
    assert forall i :: 0 <= i < n ==> calls[..n][i] == calls[i];
  }

  /** The contract's leaves, mode and handover are the ones told from the calls. */
  lemma {:induction false} EnrolmentIsExact(h: Hash, zero: nat, levels: nat, calls: seq<Call>)
    ensures var s := After(h, zero, Initial(h, zero, levels), calls);
            && s.levels == levels && s.leaves == Enrolled(levels, calls)
            && s.adminInsertOnly == AdminOnly(calls) && s.operatorMaintained == HandedOver(calls)
  {
    hide Root, Pow2, InField;
    if calls != [] {
      EnrolmentIsExact(h, zero, levels, calls[..|calls| - 1]);
      HandedOverStep(calls);
    }
  }

  lemma {:induction false} EnrolledGrows(levels: nat, calls: seq<Call>, j: nat)
    requires j <= |calls|
    ensures Enrolled(levels, calls[..j]) <= Enrolled(levels, calls)
  {
    if j == |calls| {
      assert calls[..j] == calls;
    } else {
      var n := |calls| - 1;
      EnrolledGrows(levels, calls[..n], j);
      assert calls[..n][..j] == calls[..j];
    }
  }

  /** Every leaf on the list came from an insertion the admin authorized, or made while anyone could. */
  lemma {:induction false} EveryLeafWasAllowed(h: Hash, zero: nat, levels: nat, calls: seq<Call>, i: nat) returns (j: nat)
    requires i < |After(h, zero, Initial(h, zero, levels), calls).leaves|
    ensures j < |calls| && calls[j].InsertLeaf?
    ensures calls[j].leaf == After(h, zero, Initial(h, zero, levels), calls).leaves[i]
    ensures calls[j].byAdmin || !AdminOnly(calls[..j])
    ensures !HandedOver(calls[..j])
  {
    EnrolmentIsExact(h, zero, levels, calls);
    j := WhoEnrolled(levels, calls, i);
  }

  lemma {:induction false} WhoEnrolled(levels: nat, calls: seq<Call>, i: nat) returns (j: nat)
    requires i < |Enrolled(levels, calls)|
    ensures j < |calls| && calls[j].InsertLeaf? && calls[j].leaf == Enrolled(levels, calls)[i]
    ensures calls[j].byAdmin || !AdminOnly(calls[..j])
    ensures !HandedOver(calls[..j])
  {
    var n := |calls| - 1;
    if i < |Enrolled(levels, calls[..n])| {
      j := WhoEnrolled(levels, calls[..n], i);
      assert calls[..n][..j] == calls[..j];
    } else {
      j := n;
    }
  }

  /** And every allowed insertion of a field element is made while there is room, and stays. */
  lemma {:induction false} AllowedMeansEnrolled(h: Hash, zero: nat, levels: nat, calls: seq<Call>, j: nat)
    requires j < |calls| && calls[j].InsertLeaf? && InField(calls[j].leaf)
    requires calls[j].byAdmin || !AdminOnly(calls[..j])
    requires forall i :: 0 <= i < j ==> !IsHandover(calls[i])
    requires |After(h, zero, Initial(h, zero, levels), calls[..j]).leaves| < Pow2(levels)
    ensures var start := Initial(h, zero, levels);
            var at, leaves := |After(h, zero, start, calls[..j]).leaves|, After(h, zero, start, calls).leaves;
            at < |leaves| && leaves[at] == calls[j].leaf
  {
    var upTo := calls[..j + 1];
    assert upTo[..j] == calls[..j];
    EnrolmentIsExact(h, zero, levels, calls[..j]);
    EnrolmentIsExact(h, zero, levels, calls);
    EnrolledGrows(levels, calls, j + 1);
  }

  /** Revocations, publications and changes of mode do nothing without the admin. */
  lemma OnlyTheAdminGoverns(h: Hash, zero: nat, levels: nat, calls: seq<Call>)
    requires calls != [] && !calls[|calls| - 1].InsertLeaf? && !calls[|calls| - 1].byAdmin
    ensures After(h, zero, Initial(h, zero, levels), calls) == After(h, zero, Initial(h, zero, levels), calls[..|calls| - 1])
  {
  }

  /** The log told from the calls: what was added or revoked, where, and the root from then on. */
  function Told(h: Hash, zero: nat, levels: nat, calls: seq<Call>): seq<MembershipEvent> {
    if calls == [] then []
    else
      var before, last := calls[..|calls| - 1], calls[|calls| - 1];
      Told(h, zero, levels, before) +
      if Allowed(calls) && |Enrolled(levels, before)| < Pow2(levels) then
        [LeafAdded(last.leaf, |Enrolled(levels, before)|, Root(h, zero, levels, Enrolled(levels, calls)))]
      else if IsHandover(last) then [LeafRevoked(last.leaf, last.newRoot)]
      else if last.PublishLeaf? && last.byAdmin && InField(last.leaf) && InField(last.newRoot) && HandedOver(before) then
        [LeafAdded(last.leaf, last.index, last.newRoot)]
      else []
  }

  lemma {:induction false} LogIsTold(h: Hash, zero: nat, levels: nat, calls: seq<Call>)
    ensures After(h, zero, Initial(h, zero, levels), calls).events == Told(h, zero, levels, calls)
  {
    hide Root, HandedOver, AdminOnly, InField, Pow2;
    if calls != [] {
      var n := |calls| - 1;
      LogIsTold(h, zero, levels, calls[..n]);
      EnrolmentIsExact(h, zero, levels, calls[..n]);
      EnrolmentIsExact(h, zero, levels, calls);
    }
  }
}
