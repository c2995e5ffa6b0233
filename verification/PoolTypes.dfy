/** The pool contract's data: calls, configuration, events and errors. */
module PoolTypes {
  import opened Wrappers
  import opened Numbers

  type Address = nat
  type Bytes = seq<nat>

  /** A signed 256-bit integer. */
  type I256 = x: int | -TWO_255 <= x < TWO_255

  /** The three points of a Groth16 proof, as bytes. */
  datatype Groth16Proof = Groth16Proof(a: Bytes, b: Bytes, c: Bytes) {
    predicate IsEmpty() {
      a == [] || b == [] || c == []
    }
  }

  datatype Groth16Error = InvalidProof | MalformedPublicInputs | MalformedProof

  datatype Proof = Proof(
    proof: Groth16Proof,
    root: nat,
    inputNullifiers: seq<nat>,
    outputCommitment0: nat,
    outputCommitment1: nat,
    publicAmount: nat,
    extDataHash: nat,
    aspMembershipRoot: nat)

  datatype ExtData = ExtData(
    recipient: Address,
    extAmount: I256,
    encryptedOutput0: Bytes,
    encryptedOutput1: Bytes)

  /** What aborts a call from outside the contract's own `Result`s. */
  datatype Trap =
    | Unauthorized
    | Arithmetic
    | HashInput
    | TokenRefused
    | VerifierRefused

  datatype ContractError =
    | MerkleTreeFull
    | AlreadyInitialized
    | WrongLevels
    | NextIndexNotEven
    | WrongExtAmount
    | InvalidProof
    | UnknownRoot
    | AlreadySpentNullifier
    | WrongExtHash
    | NotInitialized
    | Overflow
    | InvalidFee
    | AlreadyInsertedCommitment
    | InvalidFieldElement
    | TreeNotFull
    | DepositClosed
    | Trapped(trap: Trap)

  datatype Event =
    | NewNullifier(nullifier: nat)
    | NewCommitment(commitment: nat, index: nat, encryptedOutput: Bytes)
    | Settlement(nullifier: nat, outputCommitment0: nat, outputCommitment1: nat, outputIndex0: nat, outputIndex1: nat,
                 amountBucket: int, publicAmount: nat, recipient: Option<Address>)
    | Exit(nullifier: nat, amountBucket: int, publicAmount: nat, to: Address)

  /** Fixed at construction: this pool's address and its fee and deposit limits. */
  datatype Config = Config(
    self: Address,
    maximumDeposit: nat,
    feeRecipient: Address,
    feeBps: nat)

  predicate NoRepeats(xs: seq<nat>) {
    forall i, j :: 0 <= i < j < |xs| ==> xs[i] != xs[j]
  }

  function Elements(xs: seq<nat>): set<nat> {
    set x | x in xs
  }
}
