/**
 The loop both contracts run to append to a tree of which only the frontier is
 stored: climb from the changed node to the root, pairing with the stored left
 sibling or with a zero hash, and keep every new left node.
 */
module IncrementalTree {
  import opened Wrappers
  import opened Numbers
  import opened MerkleSpec

  /** The stored subtrees at levels `from` to `depth - 1` are those of `leaves`. */
  predicate IsFrontier(h: Hash, zero: nat, leaves: seq<nat>, filled: map<nat, nat>, from: nat, depth: nat) {
    forall l: nat :: from <= l < depth ==> l in filled && filled[l] == Frontier(h, zero, leaves, l)
  }

  predicate AreZeroHashes(h: Hash, zero: nat, zeroes: map<nat, nat>, depth: nat) {
    forall l: nat :: l < depth ==> l in zeroes && zeroes[l] == ZeroHash(h, zero, l)
  }

  /** One level of the climb: the parent of the node the path is at, and the frontier it leaves. */
  lemma {:induction false} ClimbOneLevel(h: Hash, zero: nat, before: seq<nat>, after: seq<nat>, level: nat)
    requires Appended(before, after, level)
    ensures Appended(before, after, level + 1) && Shr(|before|, level + 1) == Shr(|before|, level) / 2
    ensures var at := Shr(|before|, level);
            var here := Node(h, zero, after, level, at);
            && Node(h, zero, after, level + 1, at / 2)
               == (if at % 2 == 1 then h(Frontier(h, zero, before, level), here) else h(here, ZeroHash(h, zero, level)))
            && Frontier(h, zero, after, level) == if at % 2 == 1 then Frontier(h, zero, before, level) else here
  {
    hide Frontier, ZeroHash;
    AppendedAbove(before, after, level);
    if Shr(|before|, level) % 2 == 1 {
      FrontierIsLeftSibling(h, zero, before, after, level);
    } else {
      RightSiblingIsEmpty(h, zero, before, after, level);
    }
  }

  /** No hash on the way up is asked for anything outside the field. */
  lemma {:induction false} ClimbStaysInField(h: Hash, zero: nat, before: seq<nat>, after: seq<nat>, level: nat, at: nat)
    requires Closed(h) && InField(zero) && AllInField(after) && |before| <= |after| && before == after[..|before|]
    ensures InField(Node(h, zero, after, level, at)) && InField(Frontier(h, zero, before, level)) && InField(ZeroHash(h, zero, level))
  {
    NodeInField(h, zero, after, level, at);
    var last := if |before| == 0 then 0 else |before| - 1;
    NodeInField(h, zero, before, level, 2 * (Shr(last, level) / 2));
    EmptyTreeRoot(h, zero, level, 0);
    NodeInField(h, zero, [], level, 0);
  }

  /**
   Starts at node `index` of level `start`, which holds `hash` in the tree over
   `after`, and turns the frontier of `before` into that of `after`. `None`
   stands for a storage entry that is missing or a hash that panics.
   */
  method ClimbToRoot(h: Hash, ghost zero: nat, filled: map<nat, nat>, zeroes: map<nat, nat>, depth: nat,
                     start: nat, hash: nat, index: nat, ghost before: seq<nat>, ghost after: seq<nat>)
    returns (root: Option<nat>, frontier: map<nat, nat>)
    requires Closed(h) && InField(zero) && AllInField(after)
    requires start <= depth && |after| <= Pow2(depth)
    requires Appended(before, after, start) && index == Shr(|before|, start)
    requires hash == Node(h, zero, after, start, index)
    requires IsFrontier(h, zero, before, filled, start, depth) && AreZeroHashes(h, zero, zeroes, depth)
    ensures root == Some(Root(h, zero, depth, after))
    ensures IsFrontier(h, zero, after, frontier, start, depth)
    ensures frontier.Keys == filled.Keys
    ensures forall l: nat :: l in filled && !(start <= l < depth) ==> frontier[l] == filled[l]
  {
    hide Node, Frontier, ZeroHash, Shr;
    frontier := filled;
    var currentHash, currentIndex := hash, index;
    var lvl := start;
    while lvl < depth
      invariant start <= lvl <= depth
      invariant Appended(before, after, lvl) && currentIndex == Shr(|before|, lvl)
      invariant currentHash == Node(h, zero, after, lvl, currentIndex)
      invariant IsFrontier(h, zero, after, frontier, start, lvl) && IsFrontier(h, zero, before, frontier, lvl, depth)
      invariant frontier.Keys == filled.Keys
      invariant forall l: nat :: l in filled && !(start <= l < depth) ==> frontier[l] == filled[l]
    {
      ClimbOneLevel(h, zero, before, after, lvl);
      ClimbStaysInField(h, zero, before, after, lvl, currentIndex);
      var parent: Option<nat>;
      if currentIndex % 2 == 1 {
        if lvl !in frontier {
          return None, frontier;
        }
        parent := Compress(h, frontier[lvl], currentHash);
      } else {
        frontier := frontier[lvl := currentHash];
        if lvl !in zeroes {
          return None, frontier;
        }
        parent := Compress(h, currentHash, zeroes[lvl]);
      }
      if parent.None? {
        return None, frontier;
      }
      currentHash := parent.value;
      currentIndex := currentIndex / 2;
      lvl := lvl + 1;
    }
    ShrBound(|before|, depth, depth);
    return Some(currentHash), frontier;
  }
}
