/**
 `MerkleTreeWithHistory`: the pool's tree, kept in contract storage as a
 frontier of left siblings and a ring of the last 90 roots.
 */
module MerkleTree {
  import opened Wrappers
  import opened Numbers
  import opened MerkleSpec
  import opened IncrementalTree
  import opened RootHistory

  /** The module's errors, and `HashRange` for the panic in `poseidon2_compress`. */
  datatype MerkleError =
    | AlreadyInitialized
    | WrongLevels
    | MerkleTreeFull
    | NextIndexNotEven
    | NotInitialized
    | Overflow
    | HashRange

  /** `1u64.checked_shl(levels)`. */
  function CheckedShl(levels: nat): Option<nat> {
    if levels >= 64 then None else Some(Pow2(levels))
  }

  /** The value of every storage key of the tree. */
  datatype Storage = Storage(
    levels: Option<nat>,
    currentRootIndex: Option<nat>,
    nextIndex: Option<nat>,
    filledSubtree: map<nat, nat>,
    zeroes: map<nat, nat>,
    root: map<nat, nat>)

  /** The frontier and the zero hashes are those of the complete tree. */
  ghost predicate HoldsFrontier(h: Hash, zero: nat, st: Storage, leaves: seq<nat>, levels: nat) {
    && IsFrontier(h, zero, leaves, st.filledSubtree, 1, levels)
    && AreZeroHashes(h, zero, st.zeroes, levels)
  }

  /** The ring holds the roots after the last 90 insertions, and no others. */
  ghost predicate HoldsRing(h: Hash, zero: nat, st: Storage, leaves: seq<nat>, levels: nat) {
    var n := |leaves| / 2;
    && st.currentRootIndex == Some(n % ROOT_HISTORY_SIZE)
    && (forall k: nat :: InWindow(k, n) ==>
          && k % ROOT_HISTORY_SIZE in st.root
          && st.root[k % ROOT_HISTORY_SIZE] == RootAfter(h, zero, levels, leaves, k))
    && (forall j: nat :: j in st.root ==> j < ROOT_HISTORY_SIZE && j <= n)
  }

  /** This storage is that of an initialized tree into which `leaves` were inserted. */
  ghost predicate HoldsTree(h: Hash, zero: nat, st: Storage, leaves: seq<nat>) {
    && st.levels.Some? && 1 <= st.levels.value <= 32
    && st.nextIndex == Some(|leaves|) && |leaves| % 2 == 0 && |leaves| <= Pow2(st.levels.value)
    && AllInField(leaves)
    && HoldsFrontier(h, zero, st, leaves, st.levels.value)
    && HoldsRing(h, zero, st, leaves, st.levels.value)
  }

  lemma RingCursor(h: Hash, zero: nat, levels: nat, leaves: seq<nat>, st: Storage)
    requires HoldsRing(h, zero, st, leaves, levels)
    ensures st.currentRootIndex == Some(|leaves| / 2 % ROOT_HISTORY_SIZE)
  {
  }

  /** Writing the newest root over the oldest keeps the ring a window. */
  lemma RingAdvances(h: Hash, zero: nat, levels: nat, before: seq<nat>, after: seq<nat>, st: Storage, st': Storage)
    requires |before| % 2 == 0 && |after| == |before| + 2 && before == after[..|before|]
    requires HoldsRing(h, zero, st, before, levels)
    requires st'.currentRootIndex == Some((st.currentRootIndex.value + 1) % ROOT_HISTORY_SIZE)
    requires st'.root == st.root[st'.currentRootIndex.value := Root(h, zero, levels, after)]
    ensures HoldsRing(h, zero, st', after, levels)
  {
    hide Root;
    var n := |before| / 2;
    assert st'.currentRootIndex.value == (n + 1) % ROOT_HISTORY_SIZE;
    forall k: nat | InWindow(k, n + 1)
      ensures k % ROOT_HISTORY_SIZE in st'.root
      ensures st'.root[k % ROOT_HISTORY_SIZE] == RootAfter(h, zero, levels, after, k)
    {
      if k == n + 1 {
        assert after[..2 * k] == after;
      } else {
        assert after[..2 * k] == before[..2 * k];
        assert RootAfter(h, zero, levels, after, k) == RootAfter(h, zero, levels, before, k);
        DistinctSlots(k, n + 1);
      }
    }
  }

  /** The slot `d` steps after `current`. */
  function Slot(current: nat, d: nat): int {
    if current + d < ROOT_HISTORY_SIZE then current + d else current + d - ROOT_HISTORY_SIZE
  }

  predicate SlotDiffers(root: map<nat, nat>, current: nat, d: nat, candidate: nat) {
    var j := Slot(current, d);
    j in root ==> root[j] != candidate
  }

  /** The last insertion up to the `n`th that wrote slot `j`. */
  lemma LastWriteTo(n: nat, j: nat) returns (k: nat)
    requires j < ROOT_HISTORY_SIZE && j <= n
    ensures InWindow(k, n) && k % ROOT_HISTORY_SIZE == j
  {
    var turns := (n - j) / ROOT_HISTORY_SIZE;
    k := j + ROOT_HISTORY_SIZE * turns;
    assert n - k == (n - j) % ROOT_HISTORY_SIZE;
  }

  /** A stored slot is the root after some insertion in the window. */
  lemma SlotHoldsRecentRoot(h: Hash, zero: nat, levels: nat, leaves: seq<nat>, st: Storage, j: nat)
    requires HoldsRing(h, zero, st, leaves, levels) && j in st.root && st.root[j] != 0
    ensures RecentRoot(h, zero, levels, leaves, st.root[j])
  {
    hide RootAfter;
    var n := |leaves| / 2;
    var k := LastWriteTo(n, j);
    assert RootAfter(h, zero, levels, leaves, k) == st.root[j];
  }

  /** A full turn of the ring without a match rules out every recent root. */
  lemma NoSlotHolds(h: Hash, zero: nat, levels: nat, leaves: seq<nat>, st: Storage, current: nat, candidate: nat)
    requires HoldsRing(h, zero, st, leaves, levels) && current < ROOT_HISTORY_SIZE
    requires forall d: nat :: d < ROOT_HISTORY_SIZE ==> SlotDiffers(st.root, current, d, candidate)
    ensures !RecentRoot(h, zero, levels, leaves, candidate)
  {
    hide RootAfter;
    forall k: nat | InWindow(k, |leaves| / 2)
      ensures RootAfter(h, zero, levels, leaves, k) != candidate
    {
      var j := k % ROOT_HISTORY_SIZE;
      var d := if j < current then j + ROOT_HISTORY_SIZE - current else j - current;
      assert SlotDiffers(st.root, current, d, candidate);
    }
  }

  class MerkleTreeWithHistory {
    const h: Hash
    const zeros: seq<nat>

    var levels: Option<nat>
    var currentRootIndex: Option<nat>
    var nextIndex: Option<nat>
    var filledSubtree: map<nat, nat>
    var zeroes: map<nat, nat>
    var root: map<nat, nat>

    /** Every leaf inserted so far. */
    ghost var leaves: seq<nat>

    ghost predicate Empty()
      reads this
    {
      && levels == None && currentRootIndex == None && nextIndex == None
      && filledSubtree == map[] && zeroes == map[] && root == map[] && leaves == []
    }

    ghost predicate FrontierValid(levels: nat)
      requires |zeros| == 33
      reads this
    {
      HoldsFrontier(h, zeros[0], Snapshot(), leaves, levels)
    }

    ghost predicate RingValid(levels: nat)
      requires |zeros| == 33
      reads this
    {
      HoldsRing(h, zeros[0], Snapshot(), leaves, levels)
    }

    ghost predicate Ready()
      requires |zeros| == 33
      reads this
    {
      HoldsTree(h, zeros[0], Snapshot(), leaves)
    }

    ghost predicate Valid()
      reads this
      ensures Valid() ==> Closed(h) && ZeroTable(h, zeros)
    {
      Closed(h) && ZeroTable(h, zeros) && (Empty() || Ready())
    }

    /** Untouched contract storage. */
    constructor (h: Hash, zeros: seq<nat>)
      requires Closed(h) && ZeroTable(h, zeros)
      ensures Valid() && Empty()
      ensures this.h == h && this.zeros == zeros
    {
      this.h, this.zeros := h, zeros;
      levels, currentRootIndex, nextIndex := None, None, None;
      filledSubtree, zeroes, root := map[], map[], map[];
      leaves := [];
    }

    /** What the host remembers before a call. */
    function Snapshot(): Storage
      reads this
    {
      Storage(levels, currentRootIndex, nextIndex, filledSubtree, zeroes, root)
    }

    /** What the host does when the call fails. */
    method Restore(saved: Storage, ghost savedLeaves: seq<nat>)
      modifies this
      ensures Snapshot() == saved && leaves == savedLeaves
    {
      levels, currentRootIndex, nextIndex := saved.levels, saved.currentRootIndex, saved.nextIndex;
      filledSubtree, zeroes, root := saved.filledSubtree, saved.zeroes, saved.root;
      leaves := savedLeaves;
    }

    method Init(depth: nat) returns (r: Result<(), MerkleError>)
      requires Valid()
      modifies this
      ensures Valid()
      ensures r == if depth == 0 || depth > 32 then Err(WrongLevels)
                   else if !old(Empty()) then Err(AlreadyInitialized)
                   else Ok(())
      ensures r.Ok? ==> Ready() && levels == Some(depth) && leaves == []
      ensures r.Err? ==> unchanged(this)
    {
      if depth == 0 || depth > 32 {
        return Err(WrongLevels);
      }
      if currentRootIndex.Some? {
        return Err(AlreadyInitialized);
      }
      levels := Some(depth);
      var i := 0;
      while i <= depth
        invariant 0 <= i <= depth + 1
        invariant forall l: nat :: l < i ==> l in filledSubtree && filledSubtree[l] == zeros[l]
        invariant forall l: nat :: l < i ==> l in zeroes && zeroes[l] == zeros[l]
        invariant root == map[] && leaves == [] && levels == Some(depth)
      {
        filledSubtree := filledSubtree[i := zeros[i]];
        zeroes := zeroes[i := zeros[i]];
        i := i + 1;
      }
      root := root[0 := zeros[depth]];
      currentRootIndex := Some(0);
      nextIndex := Some(0);
      InitIsReady(depth);
      return Ok(());
    }

    lemma InitIsReady(depth: nat)
      requires Closed(h) && ZeroTable(h, zeros) && 1 <= depth <= 32
      requires forall l: nat :: l < depth ==> l in filledSubtree && filledSubtree[l] == zeros[l]
      requires forall l: nat :: l < depth ==> l in zeroes && zeroes[l] == zeros[l]
      requires leaves == [] && root == map[0 := zeros[depth]] && currentRootIndex == Some(0)
      ensures FrontierValid(depth) && RingValid(depth)
    {
      forall l: nat | l <= depth
        ensures zeros[l] == ZeroHash(h, zeros[0], l) == Frontier(h, zeros[0], leaves, l) == Node(h, zeros[0], leaves, l, 0)
      {
        ZeroTableIsZeroHash(h, zeros, l);
        ShrOfZero(l);
        EmptyTreeRoot(h, zeros[0], l, 0);
      }
      forall k: nat | InWindow(k, 0)
        ensures k % ROOT_HISTORY_SIZE in root
        ensures root[k % ROOT_HISTORY_SIZE] == RootAfter(h, zeros[0], depth, leaves, k)
      {
        assert k == 0 && leaves[..2 * k] == leaves;
      }
    }

    method InsertTwoLeaves(leaf1: nat, leaf2: nat) returns (r: Result<(nat, nat), MerkleError>)
      requires Valid()
      modifies this
      ensures Valid()
      ensures r.Err? ==> unchanged(this)
      ensures old(Empty()) ==> r == Err(NotInitialized)
      ensures old(Ready()) ==>
                r == if |old(leaves)| + 2 > Pow2(old(levels.value)) then Err(MerkleTreeFull)
                     else if !InField(leaf1) || !InField(leaf2) then Err(HashRange)
                     else Ok((|old(leaves)|, |old(leaves)| + 1))
      ensures r.Ok? ==> Ready() && levels == old(levels) && leaves == old(leaves) + [leaf1, leaf2]
    {
      if levels.None? || nextIndex.None? || currentRootIndex.None? {
        return Err(NotInitialized);
      }
      var depth, next, rootIndex := levels.value, nextIndex.value, currentRootIndex.value;
      var maxLeaves := CheckedShl(depth);
      if maxLeaves.None? {
        return Err(WrongLevels);
      }
      if next % 2 != 0 {
        return Err(NextIndexNotEven);
      }
      CapacityBound(depth);
      if next + 2 >= TWO_64 {
        return Err(MerkleError.Overflow);
      }
      if next + 2 > maxLeaves.value {
        return Err(MerkleTreeFull);
      }
      var pair := Compress(h, leaf1, leaf2);
      if pair.None? {
        return Err(HashRange);
      }
      r := AppendPair(depth, next, rootIndex, leaf1, leaf2, pair.value);
    }

    /** `insert_two_leaves` once its checks have passed. */
    method AppendPair(depth: nat, next: nat, rootIndex: nat, leaf1: nat, leaf2: nat, pairHash: nat)
      returns (r: Result<(nat, nat), MerkleError>)
      requires Valid() && Ready()
      requires levels == Some(depth) && nextIndex == Some(next) && currentRootIndex == Some(rootIndex)
      requires next + 2 <= Pow2(depth) && InField(leaf1) && InField(leaf2) && pairHash == h(leaf1, leaf2)
      modifies this
      ensures Valid() && Ready()
      ensures r == Ok((next, next + 1))
      ensures levels == old(levels) && leaves == old(leaves) + [leaf1, leaf2]
    {
      assert |zeros| == 33 && InField(zeros[0]);
      hide HoldsRing, Node, Frontier, Closed, ZeroTable, ZeroHash;
      ghost var before := leaves;
      ghost var after := leaves + [leaf1, leaf2];
      ghost var st := Snapshot();
      RingCursor(h, zeros[0], depth, before, st);
      CapacityBound(depth);
      LeafPairIsNode(h, zeros[0], before, after);
      var climbed, filled := ClimbToRoot(h, zeros[0], filledSubtree, zeroes, depth, 1, pairHash, next / 2, before, after);
      if climbed.None? {
        return Err(NotInitialized);
      }
      filledSubtree := filled;
      if rootIndex + 1 >= TWO_32 {
        return Err(MerkleError.Overflow);
      }
      var slot := (rootIndex + 1) % ROOT_HISTORY_SIZE;
      root := root[slot := climbed.value];
      currentRootIndex := Some(slot);
      nextIndex := Some(next + 2);
      leaves := after;
      RingAdvances(h, zeros[0], depth, before, after, st, Snapshot());
      if next >= TWO_32 || next + 1 >= TWO_32 {
        return Err(MerkleTreeFull);
      }
      return Ok((next, next + 1));
    }

    /** `is_full` */
    method IsFull() returns (r: Result<bool, MerkleError>)
      requires Valid()
      ensures Empty() ==> r == Err(NotInitialized)
      ensures Ready() ==> r == Ok(|leaves| == Pow2(levels.value))
    {
      if levels.None? || nextIndex.None? {
        return Err(NotInitialized);
      }
      var maxLeaves := CheckedShl(levels.value);
      if maxLeaves.None? {
        return Err(WrongLevels);
      }
      CapacityBound(levels.value);
      Pow2Even(levels.value);
      if nextIndex.value + 2 >= TWO_64 {
        return Err(MerkleError.Overflow);
      }
      return Ok(nextIndex.value + 2 > maxLeaves.value);
    }

    /** `remaining_leaves` */
    method RemainingLeaves() returns (r: Result<nat, MerkleError>)
      requires Valid()
      ensures Empty() ==> r == Err(NotInitialized)
      ensures Ready() ==> r.Ok? && |leaves| + r.value == Pow2(levels.value)
    {
      if levels.None? || nextIndex.None? {
        return Err(NotInitialized);
      }
      var maxLeaves := CheckedShl(levels.value);
      if maxLeaves.None? {
        return Err(WrongLevels);
      }
      return Ok(if maxLeaves.value >= nextIndex.value then maxLeaves.value - nextIndex.value else 0);
    }

    /** `is_known_root` */
    method IsKnownRoot(candidate: nat) returns (r: Result<bool, MerkleError>)
      requires Valid()
      ensures Empty() ==> r == if candidate == 0 then Ok(false) else Err(NotInitialized)
      ensures Ready() ==> r == Ok(RecentRoot(h, zeros[0], levels.value, leaves, candidate))
    {
      if candidate == 0 {
        return Ok(false);
      }
      if currentRootIndex.None? {
        return Err(NotInitialized);
      }
      hide HoldsFrontier, HoldsRing, RecentRoot;
      var current := currentRootIndex.value;
      RingCursor(h, zeros[0], levels.value, leaves, Snapshot());
      var i := current;
      ghost var seen := 0;
      while true
        invariant 0 <= seen < ROOT_HISTORY_SIZE && i == Slot(current, seen)
        invariant forall d: nat :: d < seen ==> SlotDiffers(root, current, d, candidate)
        decreases ROOT_HISTORY_SIZE - seen
      {
        if i in root && root[i] == candidate {
          SlotHoldsRecentRoot(h, zeros[0], levels.value, leaves, Snapshot(), i);
          return Ok(true);
        }
        if i + 1 >= TWO_32 {
          return Err(MerkleError.Overflow);
        }
        i := (i + 1) % ROOT_HISTORY_SIZE;
        seen := seen + 1;
        if i == current {
          break;
        }
      }
      NoSlotHolds(h, zeros[0], levels.value, leaves, Snapshot(), current, candidate);
      return Ok(false);
    }

    /** `get_last_root` */
    method GetLastRoot() returns (r: Result<nat, MerkleError>)
      requires Valid()
      ensures Empty() ==> r == Err(NotInitialized)
      ensures Ready() ==> r == Ok(Root(h, zeros[0], levels.value, leaves))
    {
      if currentRootIndex.None? {
        return Err(NotInitialized);
      }
      if currentRootIndex.value !in root {
        CurrentSlotHoldsRoot();
        return Err(NotInitialized);
      }
      CurrentSlotHoldsRoot();
      return Ok(root[currentRootIndex.value]);
    }

    lemma CurrentSlotHoldsRoot()
      requires Valid() && Ready()
      ensures currentRootIndex.value in root
      ensures root[currentRootIndex.value] == Root(h, zeros[0], levels.value, leaves)
    {
      var n := |leaves| / 2;
      assert leaves[..2 * n] == leaves;
      assert InWindow(n, n) && RootAfter(h, zeros[0], levels.value, leaves, n) == Root(h, zeros[0], levels.value, leaves);
    }
  }

  /** Two insertions less than a full turn apart use different slots. */
  lemma DistinctSlots(k: nat, n: nat)
    requires k < n < k + ROOT_HISTORY_SIZE
    ensures k % ROOT_HISTORY_SIZE != n % ROOT_HISTORY_SIZE
  {
  }

  /** The hash of a pair of leaves is their parent in the complete tree. */
  lemma LeafPairIsNode(h: Hash, zero: nat, before: seq<nat>, after: seq<nat>)
    requires |before| % 2 == 0 && |after| == |before| + 2 && before == after[..|before|]
    ensures Node(h, zero, after, 1, |before| / 2) == h(after[|before|], after[|before| + 1])
    ensures Appended(before, after, 1) && Shr(|before|, 1) == |before| / 2
  {
    var n := |before|;
    assert 2 * (n / 2) == n;
    assert Node(h, zero, after, 0, n) == after[n] && Node(h, zero, after, 0, n + 1) == after[n + 1];
    assert Shr(n, 1) == Shr(n, 0) / 2;
    ShrSibling(n, 1);
  }
}
