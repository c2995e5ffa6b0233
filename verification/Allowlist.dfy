/**
 What the allowlist contract promises, over whole runs: the effect of each
 entrypoint on the set of members, the published root and the event log.
 */
module Allowlist {
  import opened Wrappers
  import opened Numbers
  import opened MerkleSpec

  datatype AspError =
    | NotAuthorized
    | MerkleTreeFull
    | WrongLevels
    | NotInitialized
    | Overflow
    | InvalidFieldElement
    | OperatorMaintained
    | NotOperatorMaintained

  datatype MembershipEvent =
    | LeafAdded(leaf: nat, index: nat, root: nat)
    | LeafRevoked(leaf: nat, root: nat)

  datatype State = State(
    levels: nat,
    leaves: seq<nat>,
    root: nat,
    adminInsertOnly: bool,
    operatorMaintained: bool,
    events: seq<MembershipEvent>)

  /** An entrypoint call; `byAdmin` says whether the admin authorized it. */
  datatype Call =
    | InsertLeaf(byAdmin: bool, leaf: nat)
    | RevokeLeaf(byAdmin: bool, leaf: nat, newRoot: nat)
    | PublishLeaf(byAdmin: bool, leaf: nat, index: nat, newRoot: nat)
    | SetAdminInsertOnly(byAdmin: bool, adminOnly: bool)

  function Initial(h: Hash, zero: nat, levels: nat): State {
    State(levels, [], Root(h, zero, levels, []), true, false, [])
  }

  /** The answer a call gets in state `s`. */
  function Answer(s: State, call: Call): Result<(), AspError> {
    match call
    case InsertLeaf(byAdmin, leaf) =>
      if !InField(leaf) then Err(InvalidFieldElement)
      else if s.operatorMaintained then Err(OperatorMaintained)
      else if s.adminInsertOnly && !byAdmin then Err(NotAuthorized)
      else if |s.leaves| >= Pow2(s.levels) then Err(MerkleTreeFull)
      else Ok(())
    case RevokeLeaf(byAdmin, leaf, newRoot) =>
      if !InField(leaf) || !InField(newRoot) then Err(InvalidFieldElement)
      else if !byAdmin then Err(NotAuthorized)
      else Ok(())
    case PublishLeaf(byAdmin, leaf, index, newRoot) =>
      if !InField(leaf) || !InField(newRoot) then Err(InvalidFieldElement)
      else if !s.operatorMaintained then Err(NotOperatorMaintained)
      else if !byAdmin then Err(NotAuthorized)
      else Ok(())
    case SetAdminInsertOnly(byAdmin, _) =>
      if !byAdmin then Err(NotAuthorized) else Ok(())
  }

  /** The state after a call; a refused call leaves no trace. */
  function Next(h: Hash, zero: nat, s: State, call: Call): State {
    if Answer(s, call).Err? then s
    else match call
      case InsertLeaf(_, leaf) =>
        var root := Root(h, zero, s.levels, s.leaves + [leaf]);
        s.(leaves := s.leaves + [leaf], root := root, events := s.events + [LeafAdded(leaf, |s.leaves|, root)])
      case RevokeLeaf(_, leaf, newRoot) =>
        s.(operatorMaintained := true, root := newRoot, events := s.events + [LeafRevoked(leaf, newRoot)])
      case PublishLeaf(_, leaf, index, newRoot) =>
        s.(root := newRoot, events := s.events + [LeafAdded(leaf, index, newRoot)])
      case SetAdminInsertOnly(_, adminOnly) =>
        s.(adminInsertOnly := adminOnly)
  }

  /** The state a run of calls leads to. */
  function After(h: Hash, zero: nat, start: State, calls: seq<Call>): State {
    if calls == [] then start
    else Next(h, zero, After(h, zero, start, calls[..|calls| - 1]), calls[|calls| - 1])
  }

  /** Call `i` of the run was accepted. */
  predicate Accepted(h: Hash, zero: nat, start: State, calls: seq<Call>, i: nat)
    requires i < |calls|
  {
    Answer(After(h, zero, start, calls[..i]), calls[i]).Ok?
  }

  /** Leaves of the accepted insertions, in order. */
  function Inserted(h: Hash, zero: nat, start: State, calls: seq<Call>): seq<nat> {
    if calls == [] then []
    else
      var n := |calls| - 1;
      Inserted(h, zero, start, calls[..n]) +
      if calls[n].InsertLeaf? && Accepted(h, zero, start, calls, n) then [calls[n].leaf] else []
  }

  /** The root of the last accepted revocation or publication. */
  function LastPublished(h: Hash, zero: nat, start: State, calls: seq<Call>): Option<nat> {
    if calls == [] then None
    else
      var n := |calls| - 1;
      if (calls[n].RevokeLeaf? || calls[n].PublishLeaf?) && Accepted(h, zero, start, calls, n)
      then Some(calls[n].newRoot)
      else LastPublished(h, zero, start, calls[..n])
  }

  predicate Revoked(h: Hash, zero: nat, start: State, calls: seq<Call>) {
    exists i: nat :: i < |calls| && calls[i].RevokeLeaf? && Accepted(h, zero, start, calls, i)
  }

  lemma RevokedStep(h: Hash, zero: nat, start: State, calls: seq<Call>)
    requires calls != []
    ensures var n := |calls| - 1;
            Revoked(h, zero, start, calls) <==>
              Revoked(h, zero, start, calls[..n]) || (calls[n].RevokeLeaf? && Accepted(h, zero, start, calls, n))
  {
    var n := |calls| - 1;
    assert forall i: nat :: i < n ==> calls[..n][..i] == calls[..i];
    if Revoked(h, zero, start, calls[..n]) {
      var i: nat :| i < n && calls[..n][i].RevokeLeaf? && Accepted(h, zero, start, calls[..n], i);
      assert calls[i].RevokeLeaf? && Accepted(h, zero, start, calls, i);
    }
    if Revoked(h, zero, start, calls) && !(calls[n].RevokeLeaf? && Accepted(h, zero, start, calls, n)) {
      var i: nat :| i < |calls| && calls[i].RevokeLeaf? && Accepted(h, zero, start, calls, i);
      assert calls[..n][i].RevokeLeaf? && Accepted(h, zero, start, calls[..n], i);
    }
  }

  /**
   Over every run the tree holds exactly the accepted leaves; until the first
   revocation the root is the complete tree's, and ever after it is the last
   root the operator published.
   */
  lemma {:induction false} RootOverRuns(h: Hash, zero: nat, levels: nat, calls: seq<Call>)
    ensures var start := Initial(h, zero, levels);
            var s := After(h, zero, start, calls);
            && s.levels == levels
            && s.leaves == Inserted(h, zero, start, calls)
            && AllInField(s.leaves) && |s.leaves| <= Pow2(levels)
            && (s.operatorMaintained <==> Revoked(h, zero, start, calls))
            && (!s.operatorMaintained ==> s.root == Root(h, zero, levels, s.leaves))
            && (s.operatorMaintained ==> LastPublished(h, zero, start, calls) == Some(s.root))
  {
    var start := Initial(h, zero, levels);
    if calls != [] {
      RootOverRuns(h, zero, levels, calls[..|calls| - 1]);
      RevokedStep(h, zero, start, calls);
    }
  }

  /** The newest membership event always carries the current root. */
  lemma {:induction false} LastEventCarriesRoot(h: Hash, zero: nat, levels: nat, calls: seq<Call>)
    ensures var s := After(h, zero, Initial(h, zero, levels), calls);
            if s.events == [] then s.root == Root(h, zero, levels, [])
            else s.root == s.events[|s.events| - 1].root
  {
    if calls != [] {
      LastEventCarriesRoot(h, zero, levels, calls[..|calls| - 1]);
    }
  }

  /** Until the first revocation the log lists every leaf with its index and the root it produced. */
  lemma {:induction false} LogBeforeHandover(h: Hash, zero: nat, levels: nat, calls: seq<Call>)
    requires !After(h, zero, Initial(h, zero, levels), calls).operatorMaintained
    ensures var s := After(h, zero, Initial(h, zero, levels), calls);
            && s.levels == levels
            && |s.events| == |s.leaves|
            && forall i: nat :: i < |s.leaves| ==>
                 s.events[i] == LeafAdded(s.leaves[i], i, Root(h, zero, levels, s.leaves[..i + 1]))
  {
    if calls != [] {
      var n := |calls| - 1;
      var s := After(h, zero, Initial(h, zero, levels), calls);
      var before := After(h, zero, Initial(h, zero, levels), calls[..n]);
      LogBeforeHandover(h, zero, levels, calls[..n]);
      assert s.leaves[..|s.leaves|] == s.leaves;
      forall i: nat | i < |s.leaves|
        ensures s.events[i] == LeafAdded(s.leaves[i], i, Root(h, zero, levels, s.leaves[..i + 1]))
      {
        if i < |before.leaves| {
          assert s.leaves[..i + 1] == before.leaves[..i + 1];
        }
      }
    }
  }

  /** The handover is one-way: afterwards no call moves the frontier again. */
  lemma {:induction false} HandoverIsOneWay(h: Hash, zero: nat, start: State, calls: seq<Call>)
    requires start.operatorMaintained
    ensures var s := After(h, zero, start, calls);
            s.operatorMaintained && s.leaves == start.leaves && s.levels == start.levels
  {
    if calls != [] {
      HandoverIsOneWay(h, zero, start, calls[..|calls| - 1]);
    }
  }
}
