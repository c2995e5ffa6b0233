/**
 The relation the `policy_tx_2_2` circuit enforces between its nine public
 inputs and a private witness, with its Poseidon2 hashes as parameters.
 */
module Circuit {
  import opened Numbers
  import opened MerkleSpec
  import opened MerkleOpening
  import opened PoolTypes
  import opened VerifierBoundary

  /** Compression of two, and sponge-free hashes of two and three elements with a domain tag. */
  datatype Hashes = Hashes(
    compress: Hash,
    hash2: (nat, nat, nat) -> nat,
    hash3: (nat, nat, nat, nat) -> nat)

  datatype Note = Note(amount: nat, publicKey: nat, blinding: nat)

  datatype Input = Input(
    amount: nat,
    privateKey: nat,
    blinding: nat,
    pathIndex: nat,
    siblings: seq<nat>,
    memberBlinding: nat,
    memberIndex: nat,
    memberSiblings: seq<nat>)

  datatype Witness = Witness(in0: Input, in1: Input, out0: Note, out1: Note)

  function PublicKey(h: Hashes, privateKey: nat): nat {
    h.hash2(privateKey, 0, 3)
  }

  function Commitment(h: Hashes, n: Note): nat {
    h.hash3(n.amount, n.publicKey, n.blinding, 1)
  }

  function Signature(h: Hashes, privateKey: nat, commitment: nat, path: nat): nat {
    h.hash3(privateKey, commitment, path, 4)
  }

  /** The nullifier of the note with this commitment at this position. */
  function Nullifier(h: Hashes, commitment: nat, path: nat, privateKey: nat): nat {
    h.hash3(commitment, path, Signature(h, privateKey, commitment, path), 2)
  }

  /** The allowlist leaf of a key. */
  function MemberLeaf(h: Hashes, publicKey: nat, blinding: nat): nat {
    h.hash2(publicKey, blinding, 1)
  }

  /** The zero leaf: the hash of "XLM" under domain 0. */
  function ZeroLeaf(h: Hashes): nat {
    h.hash3(88, 76, 77, 0)
  }

  /** The note an input claims to spend. */
  function InputNote(h: Hashes, i: Input): Note {
    Note(i.amount, PublicKey(h, i.privateKey), i.blinding)
  }

  /** One input: a derived nullifier, a path to the root unless it is worth nothing, and an enrolled key. */
  predicate InputHolds(h: Hashes, levels: nat, root: nat, nullifier: nat, memberRoot: nat, i: Input) {
    && InField(i.amount)
    && |i.siblings| == levels && i.pathIndex < Pow2(levels)
    && nullifier == Nullifier(h, Commitment(h, InputNote(h, i)), i.pathIndex, i.privateKey)
    && (i.amount != 0 ==> PathHash(h.compress, Commitment(h, InputNote(h, i)), i.pathIndex, i.siblings, levels) == root)
    && |i.memberSiblings| == levels && i.memberIndex < Pow2(levels)
    && PathHash(h.compress, MemberLeaf(h, PublicKey(h, i.privateKey), i.memberBlinding), i.memberIndex, i.memberSiblings, levels)
       == memberRoot
  }

  predicate OutputHolds(h: Hashes, commitment: nat, n: Note) {
    commitment == Commitment(h, n) && n.amount < TWO_248
  }

  /** The whole circuit, on public inputs in the verifier's order. */
  predicate Relation(h: Hashes, levels: nat, public: seq<nat>, w: Witness) {
    && |public| == 9
    && InputHolds(h, levels, public[0], public[3], public[7], w.in0)
    && InputHolds(h, levels, public[0], public[4], public[8], w.in1)
    && OutputHolds(h, public[5], w.out0)
    && OutputHolds(h, public[6], w.out1)
    && public[3] != public[4]
    && (w.in0.amount + w.in1.amount + public[1] - w.out0.amount - w.out1.amount) % MODULUS == 0
  }

  /** What the relation says about a pool proof, read through the verifier's input order. */
  lemma RelationOnProof(h: Hashes, levels: nat, p: Proof, w: Witness)
    requires Relation(h, levels, PublicInputs(p), w)
    ensures |p.inputNullifiers| == 2 && p.inputNullifiers[0] != p.inputNullifiers[1]
    ensures InputHolds(h, levels, p.root, p.inputNullifiers[0], p.aspMembershipRoot, w.in0)
    ensures InputHolds(h, levels, p.root, p.inputNullifiers[1], p.aspMembershipRoot, w.in1)
    ensures OutputHolds(h, p.outputCommitment0, w.out0) && OutputHolds(h, p.outputCommitment1, w.out1)
    ensures (w.in0.amount + w.in1.amount + p.publicAmount - w.out0.amount - w.out1.amount) % MODULUS == 0
  {
    PublicInputsAt(p);
    var v := PublicInputs(p);
    assert v[3..5] == p.inputNullifiers;
    assert v[3] == v[3..5][0] && v[4] == v[3..5][1];
  }

  // ---------- Hash queries

  /** A log of hash inputs. */
  datatype Queries = Queries(
    pairs: iset<(nat, nat)>,
    triples: iset<(nat, nat, nat)>,
    quads: iset<(nat, nat, nat, nat)>)

  /** No two different logged inputs have the same hash. */
  ghost predicate CollisionFree(h: Hashes, q: Queries) {
    && (forall x, y | x in q.pairs && y in q.pairs :: h.compress(x.0, x.1) == h.compress(y.0, y.1) ==> x == y)
    && (forall x, y | x in q.triples && y in q.triples :: h.hash2(x.0, x.1, x.2) == h.hash2(y.0, y.1, y.2) ==> x == y)
    && (forall x, y | x in q.quads && y in q.quads ::
          h.hash3(x.0, x.1, x.2, x.3) == h.hash3(y.0, y.1, y.2, y.3) ==> x == y)
  }

  function NoteQuery(n: Note): (nat, nat, nat, nat) {
    (n.amount, n.publicKey, n.blinding, 1)
  }

  /** The log holds every pair hashed in the trees over the prefixes of `leaves`. */
  ghost predicate LogsTrees(q: Queries, h: Hash, zero: nat, levels: nat, leaves: seq<nat>) {
    forall k: nat, l: nat, i: nat {:trigger NodePair(h, zero, leaves[..k], l, i)} ::
      k <= |leaves| && l < levels ==> NodePair(h, zero, leaves[..k], l, i) in q.pairs
  }

  ghost predicate LogsInput(q: Queries, h: Hashes, i: Input) {
    && (forall l: nat {:trigger PathPair(h.compress, Commitment(h, InputNote(h, i)), i.pathIndex, i.siblings, l)} ::
          l < |i.siblings| ==> PathPair(h.compress, Commitment(h, InputNote(h, i)), i.pathIndex, i.siblings, l) in q.pairs)
    && NoteQuery(InputNote(h, i)) in q.quads
    && (i.privateKey, 0, 3) in q.triples
    && LogsNullifier(q, h, Commitment(h, InputNote(h, i)), i.pathIndex, i.privateKey)
  }

  /** The log holds what deriving this nullifier hashes. */
  ghost predicate LogsNullifier(q: Queries, h: Hashes, commitment: nat, path: nat, privateKey: nat) {
    && (privateKey, commitment, path, 4) in q.quads
    && (commitment, path, Signature(h, privateKey, commitment, path), 2) in q.quads
  }

  /** The log holds what the witness hashes. */
  ghost predicate LogsWitness(q: Queries, h: Hashes, w: Witness) {
    && LogsInput(q, h, w.in0) && LogsInput(q, h, w.in1)
    && NoteQuery(w.out0) in q.quads && NoteQuery(w.out1) in q.quads
    && (88, 76, 77, 0) in q.quads
  }

  /** Logged notes with the same commitment are the same note. */
  lemma SameCommitmentSameNote(h: Hashes, q: Queries, a: Note, b: Note)
    requires CollisionFree(h, q) && NoteQuery(a) in q.quads && NoteQuery(b) in q.quads
    requires Commitment(h, a) == Commitment(h, b)
    ensures a == b
  {
    assert NoteQuery(a) == NoteQuery(b);
  }

  /** No logged note commits to the zero leaf. */
  lemma NoteIsNotZeroLeaf(h: Hashes, q: Queries, n: Note)
    requires CollisionFree(h, q) && NoteQuery(n) in q.quads && (88, 76, 77, 0) in q.quads
    ensures Commitment(h, n) != ZeroLeaf(h)
  {
  }

  /** A nullifier determines the commitment, the position and the key it was derived from. */
  lemma SameNullifierSameSpend(h: Hashes, q: Queries, c: nat, path: nat, key: nat, c': nat, path': nat, key': nat)
    requires CollisionFree(h, q) && LogsNullifier(q, h, c, path, key) && LogsNullifier(q, h, c', path', key')
    requires Nullifier(h, c, path, key) == Nullifier(h, c', path', key')
    ensures c == c' && path == path' && key == key'
  {
    var x := (c, path, Signature(h, key, c, path), 2);
    var y := (c', path', Signature(h, key', c', path'), 2);
    assert x == y;
    assert (key, c, path, 4) == (key', c', path', 4);
  }

  lemma SameKeySameSecret(h: Hashes, q: Queries, a: nat, b: nat)
    requires CollisionFree(h, q) && (a, 0, 3) in q.triples && (b, 0, 3) in q.triples
    requires PublicKey(h, a) == PublicKey(h, b)
    ensures a == b
  {
    assert (a, 0, 3) == (b, 0, 3);
  }
}
