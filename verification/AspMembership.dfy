/** The allowlist contract: the same incremental tree, filled one leaf at a time. */
module AspMembership {
  import opened Wrappers
  import opened Numbers
  import opened MerkleSpec
  import opened IncrementalTree
  import opened Allowlist

  class ASPMembership {
    const h: Hash
    const zeros: seq<nat>
    const levels: nat

    var nextIndex: nat
    var root: nat
    var filledSubtrees: map<nat, nat>
    var zeroes: map<nat, nat>
    var adminInsertOnly: bool
    var operatorMaintained: bool
    var events: seq<MembershipEvent>

    /** Every leaf inserted by this contract. */
    ghost var leaves: seq<nat>

    ghost predicate Valid()
      reads this
      ensures Valid() ==> |zeros| == 33
    {
      && Closed(h) && ZeroTable(h, zeros) && 1 <= levels <= 32
      && nextIndex == |leaves| <= Pow2(levels) && AllInField(leaves)
      && IsFrontier(h, zeros[0], leaves, filledSubtrees, 0, levels)
      && AreZeroHashes(h, zeros[0], zeroes, levels)
      && (!operatorMaintained ==> root == Root(h, zeros[0], levels, leaves))
    }

    ghost function Abstract(): State
      reads this
    {
      State(levels, leaves, root, adminInsertOnly, operatorMaintained, events)
    }

    /** `__constructor`, for a depth it accepts. */
    constructor (h: Hash, zeros: seq<nat>, depth: nat)
      requires Closed(h) && ZeroTable(h, zeros) && 1 <= depth <= 32
      ensures Valid() && Abstract() == Initial(h, zeros[0], depth)
      ensures this.h == h && this.zeros == zeros
    {
      this.h, this.zeros, levels := h, zeros, depth;
      nextIndex := 0;
      adminInsertOnly, operatorMaintained, events := true, false, [];
      leaves := [];
      var filled: map<nat, nat>, empty: map<nat, nat> := map[], map[];
      var lvl := 0;
      while lvl <= depth
        invariant 0 <= lvl <= depth + 1
        invariant forall l: nat :: l < lvl ==> l in filled && filled[l] == zeros[l]
        invariant forall l: nat :: l < lvl ==> l in empty && empty[l] == zeros[l]
      {
        filled := filled[lvl := zeros[lvl]];
        empty := empty[lvl := zeros[lvl]];
        lvl := lvl + 1;
      }
      filledSubtrees, zeroes := filled, empty;
      root := zeros[depth];
      forall l: nat | l <= depth
        ensures zeros[l] == ZeroHash(h, zeros[0], l) == Frontier(h, zeros[0], [], l) == Node(h, zeros[0], [], l, 0)
      {
        ZeroTableIsZeroHash(h, zeros, l);
        ShrOfZero(l);
        EmptyTreeRoot(h, zeros[0], l, 0);
      }
    }

    /** `__constructor`: a depth outside 1 to 32 deploys nothing. */
    static method Deploy(h: Hash, zeros: seq<nat>, depth: nat) returns (r: Result<ASPMembership, AspError>)
      requires Closed(h) && ZeroTable(h, zeros)
      ensures r.Err? <==> depth == 0 || depth > 32
      ensures r.Err? ==> r.error == WrongLevels
      ensures r.Ok? ==> fresh(r.value) && r.value.Valid() && r.value.h == h && r.value.zeros == zeros
                        && r.value.Abstract() == Initial(h, zeros[0], depth)
    {
      if depth == 0 || depth > 32 {
        return Err(WrongLevels);
      }
      var asp := new ASPMembership(h, zeros, depth);
      return Ok(asp);
    }

    /** `insert_leaf` */
    method InsertLeaf(byAdmin: bool, leaf: nat) returns (r: Result<(), AspError>)
      requires Valid()
      modifies this
      ensures Valid()
      ensures r == Answer(old(Abstract()), Call.InsertLeaf(byAdmin, leaf))
      ensures Abstract() == Next(h, zeros[0], old(Abstract()), Call.InsertLeaf(byAdmin, leaf))
    {
      if leaf >= MODULUS {
        return Err(InvalidFieldElement);
      }
      if operatorMaintained {
        return Err(OperatorMaintained);
      }
      if adminInsertOnly && !byAdmin {
        return Err(NotAuthorized);
      }
      var actualIndex := nextIndex;
      if levels >= 64 || actualIndex >= Pow2(levels) {
        return Err(MerkleTreeFull);
      }
      ghost var after := leaves + [leaf];
      CapacityBound(levels);
      assert Node(h, zeros[0], after, 0, actualIndex) == leaf && Appended(leaves, after, 0);
      var climbed, filled := ClimbToRoot(h, zeros[0], filledSubtrees, zeroes, levels, 0, leaf, actualIndex, leaves, after);
      if climbed.None? {
        return Err(NotInitialized);
      }
      filledSubtrees := filled;
      root := climbed.value;
      events := events + [LeafAdded(leaf, actualIndex, climbed.value)];
      if actualIndex + 1 >= TWO_64 {
        return Err(AspError.Overflow);
      }
      nextIndex := actualIndex + 1;
      leaves := after;
      return Ok(());
    }

    /** `revoke_leaf` */
    method RevokeLeaf(byAdmin: bool, leaf: nat, newRoot: nat) returns (r: Result<(), AspError>)
      requires Valid()
      modifies this
      ensures Valid()
      ensures r == Answer(old(Abstract()), Call.RevokeLeaf(byAdmin, leaf, newRoot))
      ensures Abstract() == Next(h, zeros[0], old(Abstract()), Call.RevokeLeaf(byAdmin, leaf, newRoot))
    {
      if leaf >= MODULUS || newRoot >= MODULUS {
        return Err(InvalidFieldElement);
      }
      if !byAdmin {
        return Err(NotAuthorized);
      }
      operatorMaintained := true;
      root := newRoot;
      events := events + [LeafRevoked(leaf, newRoot)];
      return Ok(());
    }

    /** `publish_leaf` */
    method PublishLeaf(byAdmin: bool, leaf: nat, index: nat, newRoot: nat) returns (r: Result<(), AspError>)
      requires Valid()
      modifies this
      ensures Valid()
      ensures r == Answer(old(Abstract()), Call.PublishLeaf(byAdmin, leaf, index, newRoot))
      ensures Abstract() == Next(h, zeros[0], old(Abstract()), Call.PublishLeaf(byAdmin, leaf, index, newRoot))
    {
      if leaf >= MODULUS || newRoot >= MODULUS {
        return Err(InvalidFieldElement);
      }
      if !operatorMaintained {
        return Err(NotOperatorMaintained);
      }
      if !byAdmin {
        return Err(NotAuthorized);
      }
      root := newRoot;
      events := events + [LeafAdded(leaf, index, newRoot)];
      return Ok(());
    }

    /** `set_admin_insert_only` */
    method SetAdminInsertOnly(byAdmin: bool, adminOnly: bool) returns (r: Result<(), AspError>)
      requires Valid()
      modifies this
      ensures Valid()
      ensures r == Answer(old(Abstract()), Call.SetAdminInsertOnly(byAdmin, adminOnly))
      ensures Abstract() == Next(h, zeros[0], old(Abstract()), Call.SetAdminInsertOnly(byAdmin, adminOnly))
    {
      if !byAdmin {
        return Err(NotAuthorized);
      }
      adminInsertOnly := adminOnly;
      return Ok(());
    }
  }
}
