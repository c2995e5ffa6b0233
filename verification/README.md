# Veil pool, allowlist and Poseidon2, in Dafny

A model of the Veil shielded pool and of what it stands on, with proofs about
every run of it. `dafny verify dfyconfig.toml` checks the whole project.

Four parts of the repository are modelled, each in the form its source has.

**The trees.** `MerkleSpec` defines the complete binary tree of fixed depth over
the leaves inserted so far, padded with the zero leaf. `MerkleTree` is the
pool's `MerkleTreeWithHistory` and `AspMembership` the allowlist contract, both
classes over their storage keys; `IncrementalTree` is the level loop they share.
The classes are proved to hold exactly the complete tree, the ring of 90 roots
to be exactly the last 90 roots, and the two trees to simulate each other.
`MerkleOpening` and `RootHistory` say what a path to an accepted root can open.
`Compression` is `poseidon2_compress`. `Enrolment` tells who is on the allowlist
from the calls alone.

**The pool.** `PoolContract` is the contract as a class: maps of nullifiers and
commitments, the tree, a token ledger and the event log. A failed call is rolled
back, as the host does. Every entrypoint is proved to compute a function of
`Settlement`, and whole runs are lemmas about those functions: `PoolRuns`
(single spending, leaves and commitments, replay of events, fullness),
`PoolMoney` (balances, fees, which errors can happen), `Circuit` and `Solvency`
(value is conserved and every payout is covered), `Compliance` (who can spend).
`Acceptance` says exactly when a call is accepted, with which error it is refused
and what it moves, and `RunEvents` what each event of a run says. `Leaving` is
the promise of `exit`. `Interleaving`, `InterleavedLog`,
`NestedSolvency` and `ReentrantPool` cut `settle` at each of its external
calls and let any other calls, nested to any depth, run in between.

**The verifier.** `Groth16Verifier` is `verify_with_vk`, proved to decide the
Groth16 equation for any pairing; `Groth16Trapdoor` shows that honest proofs
satisfy it.

**Poseidon2.** Over any field: `Elimination` is `mat_inverse` on two matrices
changed row by row, `RoundConstants` moves round constants through partial
rounds, `Poseidon2` runs the permutation in place on an array,
`Poseidon2Layers` gives the cheap linear layers and the dense matrices they
stand for, and `Poseidon2Inverse` inverts the permutation layer by layer.

What is assumed is always a parameter or a precondition, never an axiom:

- `Closed`, `ZeroTable`: the hash maps field elements to field elements, and the
  table of zero hashes is a chain of that hash.
- `Sound`: the verifier's acceptance of a call means that a witness for the
  circuit's relation exists. The relation is `Circuit.Relation`, written from
  the circom sources.
- `CollisionFree`: among the hash inputs that a run and its witnesses use, no
  two different ones collide. A compression of two field elements to one cannot
  be injective, so the hypothesis is about a log of inputs.
- `IsField`: the field laws. `IsMonoid`, `IsPairing`: the laws of the host's
  curve and pairing that the verifier relies on; `InExponents`: that points are
  images of exponents and pairing multiplies them.
- The token is an honest ledger, except under nesting: in `Interleaving` and
  `ReentrantPool` its balances may change in any way, and in
  `NestedSolvency` only what they hold for the pool is constrained.

## Findings

Some properties turn out false of the code as it stands. Each is kept as the
code has it, with the exact condition under which the property holds.

- `mat_inverse` has no pivoting. It returns an inverse if and only if every
  leading square block is regular (`Elimination.MatInverse`); the exchange
  matrix is its own inverse and is refused (`Elimination.ExchangeIsRefused`).
- `matmul_internal` ignores the diagonal it is given for t = 2 and t = 3. The
  layer is the matrix of ones plus that diagonal if and only if the diagonal is
  [1, 2] or [1, 1, 2] (`Poseidon2Layers.InternalIsDense`); a diagonal of zeros is a
  failing input (`Poseidon2Layers.ZeroDiagonalIsIgnored`).
- `Poseidon2Params::new` accepts degree 11, for which there is no S-box; among
  accepted degrees the S-box is missing if and only if the degree is 11
  (`Poseidon2.DegreeElevenHasNoSbox`).
- The public inputs bind the allowlist root only if there is a nullifier
  (`VerifierBoundary.PublicInputsBindTheStatement`, with a pair of proofs in
  `AllowlistRootUnbound`); under the embedded key there always are two.
- `exit` is documented as enough for any holder to empty a full pool. It lets
  unspent notes out in full if and only if the amount and its fee product fit 128
  bits (`Leaving.HoldersCanLeave`); a note of 2^126 cannot leave from 2 basis
  points on (`Leaving.LargeNoteIsRefused`).

## If the host allowed re-entry

The host refuses a call back into the pool while it is being called, as
contracts/pool/src/test.rs:1076-1083 says, so nothing in this section can happen
as deployed. It is what the order of writes in `settle` would carry by itself.
Storage stays right in every interleaving (`Interleaving`, and `ReentrantPool`
for the contract with its frontier and ring), and so does solvency if the token
is honest to the pool (`NestedSolvency`). Commitments are announced only
after the payouts. Read by position the log is right in every interleaving; read
in order it is right if and only if no insertion that was kept happened above a
call that was paying out and inserting (`InterleavedLog`, with the moves that
break it).

Where comments and code disagree the model follows the code. The comment above
`settle` names a function `internal_transact` and says that nothing is written
before validation; the deposit of `transact` is transferred first. The
documentation of `settle` lists withdrawals before insertion; the code inserts
first. `poseidon2_compress` documents its range as `[0, p-1)`; the code accepts
`p - 1`.

## Model

| member | source | states |
|---|---|---|
| `Compression.CompressIsAFieldHash` | contracts/soroban-utils/src/poseidon2.rs:25-57 | On every permutation of the field the compression panics exactly outside the range, stays in the field, adds without exceeding 256 bits, and is congruent to the sum |
| `Compression.SameLeftCollisions` | contracts/soroban-utils/src/poseidon2.rs:48-56 | For an injective permutation, a collision on the same left input happens exactly when the kept outputs agree, and the discarded outputs then differ |
| `MerkleSpec.ZeroTableIsZeroHash` | contracts/soroban-utils/src/poseidon2.rs:112-118 | Entry i of the zero table is the root of an empty subtree of height i, and a field element |
| `MerkleSpec.RootIsHashOfHalves` | contracts/pool/src/merkle_with_history.rs:145-171 | The complete tree is a leaf, or the hash of the roots of its left and its right half, in this order |
| `MerkleSpec.FrontierIsLeftSibling` | contracts/pool/src/merkle_with_history.rs:155-161 | When the path turns right, the stored subtree is the left sibling in the complete tree over the old and the new leaves |
| `MerkleSpec.RightSiblingIsEmpty` | contracts/pool/src/merkle_with_history.rs:162-169 | When the path turns left, the right sibling is a zero hash and the current node is the new frontier |
| `IncrementalTree.ClimbStaysInField` | contracts/soroban-utils/src/poseidon2.rs:28-30 | No hash on the way to the root is asked for a value outside the field, so the range panic cannot happen inside an insertion |
| `IncrementalTree.ClimbToRoot` | contracts/asp-membership/src/contract.rs:85-99 | The level loop turns the frontier of the old leaves into that of the new ones, returns the complete tree's root, and never misses a storage entry |
| `MerkleTree.MerkleTreeWithHistory.Init` | contracts/pool/src/merkle_with_history.rs:68-99 | Accepts exactly depths 1 to 32 on untouched storage and establishes the empty complete tree with its one root |
| `MerkleTree.MerkleTreeWithHistory.InsertTwoLeaves` | contracts/pool/src/merkle_with_history.rs:122-191 | Appends both leaves and keeps frontier and ring those of the complete tree; says exactly when it fails and with which error, and that a failure changes nothing |
| `MerkleTree.RingAdvances` | contracts/pool/src/merkle_with_history.rs:173-177 | Writing the newest root over the oldest keeps the ring exactly the window of the last 90 roots |
| `MerkleTree.MerkleTreeWithHistory.IsFull` | contracts/pool/src/merkle_with_history.rs:198-208 | True exactly when the tree holds 2^levels leaves |
| `MerkleTree.MerkleTreeWithHistory.RemainingLeaves` | contracts/pool/src/merkle_with_history.rs:211-221 | Leaves inserted and leaves remaining add up to 2^levels |
| `MerkleTree.MerkleTreeWithHistory.IsKnownRoot` | contracts/pool/src/merkle_with_history.rs:239-266 | The wrap-around search terminates and answers true exactly for a nonzero root among the last 90 of the leaf history |
| `MerkleTree.MerkleTreeWithHistory.GetLastRoot` | contracts/pool/src/merkle_with_history.rs:279-288 | Returns the root of the complete tree over all inserted leaves in order |
| `TreeSimulation.InsertAll` | contracts/pool/src/merkle_with_history.rs:68-221 | From `init` through any sequence of pairs, exactly the first 2^(levels-1) succeed, the last root is the complete tree's, and full, none remaining and that count are the same thing |
| `TreeSimulation.PairIsTwoSingles` | contracts/pool/src/merkle_with_history.rs:146-171 | At every even position one pair insertion and two single insertions both succeed or both fail and leave the same root and the same subtrees from level 1 up |
| `MerkleOpening.OpeningIsSound` | circuits/src/merkleProof.circom:12-35 | A path to a node of the tree starts at the leaf of its index, or two different hash inputs on it with the same output are exhibited |
| `MerkleOpening.RootOpensOnlyToItsLeaf` | circuits/src/merkleProof.circom:12-35 | A root opens at an index exactly to its leaf, up to an exhibited collision, and that leaf does have a path |
| `RootHistory.AcceptedRootOpensToItsPrefix` | contracts/pool/src/merkle_with_history.rs:239-266 | Every accepted root is the complete root of an even prefix of the leaf history and opens only to that prefix's leaves or the padding, up to an exhibited collision |
| `RootHistory.KnownForNinety` | contracts/pool/src/merkle_with_history.rs:17-18 | A root is known through 89 further insertions, and after 90 or more exactly if one of the last 90 roots is the same again |
| `RootHistory.PastRootOpensToItsPrefix` | contracts/pool/src/contract.rs:441-444 | The same of a root that has left the window since it was checked |
| `AspMembership.ASPMembership.Deploy` | contracts/asp-membership/src/contract.rs:27-51 | Accepts exactly depths 1 to 32 and starts from the empty tree |
| `AspMembership.ASPMembership.InsertLeaf` | contracts/asp-membership/src/contract.rs:60-114 | Answers and changes state as the abstract allowlist does: the checks in order, then the complete tree over one more leaf and its event |
| `AspMembership.ASPMembership.RevokeLeaf` | contracts/asp-membership/src/contract.rs:129-146 | Hands the root over to the operator and leaves the frontier alone |
| `AspMembership.ASPMembership.PublishLeaf` | contracts/asp-membership/src/contract.rs:154-175 | Only after a handover, publishes the operator's root and its event |
| `AspMembership.ASPMembership.SetAdminInsertOnly` | contracts/asp-membership/src/contract.rs:233-238 | Changes the insertion mode and nothing else |
| `Allowlist.RootOverRuns` | contracts/asp-membership/src/contract.rs:60-175 | Over every run the tree holds the accepted leaves in order; the root is the complete tree's until the first accepted revocation and the last published root ever after |
| `Allowlist.LastEventCarriesRoot` | contracts/asp-membership/src/contract.rs:101-175 | Over every run the newest membership event carries the current root |
| `Allowlist.LogBeforeHandover` | contracts/asp-membership/src/contract.rs:101-113 | Until a revocation, event i is leaf i with index i and the root of the first i + 1 leaves |
| `Allowlist.HandoverIsOneWay` | contracts/asp-membership/src/contract.rs:63-68 | After a handover no run moves the leaves or returns to the contract's own tree |
| `Enrolment.EnrolmentIsExact` | contracts/asp-membership/src/contract.rs:60-114 | Over every run the leaves, the insertion mode and the handover are those told from the calls alone: insertions of field elements by the admin, or by anyone while the admin last allowed it, before the first authorized revocation and while there is room |
| `Enrolment.EveryLeafWasAllowed` | contracts/asp-membership/src/contract.rs:70-73 | Every leaf came from an insertion that the admin authorized, or made while the last authorized mode change let anyone insert, and before any handover |
| `Enrolment.AllowedMeansEnrolled` | contracts/asp-membership/src/contract.rs:60-114 | Every such insertion with room left is made and stays at its position |
| `Enrolment.OnlyTheAdminGoverns` | contracts/asp-membership/src/contract.rs:129-238 | Revocations, publications and mode changes without the admin change nothing |
| `Enrolment.LogIsTold` | contracts/asp-membership/src/contract.rs:103-172 | Over every run the log, leaf by leaf with indices and roots, is the one told from the calls alone |
| `VerifierBoundary.FromProof` | contracts/pool/src/verifier_boundary.rs:39-55 | The two loops build the public inputs in the documented order |
| `VerifierBoundary.PublicInputsAt` | contracts/pool/src/verifier_boundary.rs:22-55 | There are 5 + 2n inputs, each at its place, with the allowlist root once per nullifier |
| `VerifierBoundary.PublicInputsBindTheStatement` | contracts/pool/src/verifier_boundary.rs:39-55 | Two proofs give the same inputs exactly when they agree on every public field, the allowlist root only counting when there is a nullifier |
| `VerifierBoundary.AllowlistRootUnbound` | contracts/pool/src/verifier_boundary.rs:50-52 | Without nullifiers, two proofs with different allowlist roots have the same public inputs |
| `Groth16Verifier.VerifyWithVk` | contracts/verifier/src/contract.rs:23-70 | Refuses exactly a wrong number of inputs, and otherwise accepts exactly when e(A, B) = e(alpha, beta) e(ic[0] + sum of inputs[i] ic[i + 1], gamma) e(C, delta), for any pairing behind the host's check |
| `Groth16Verifier.OnlyOneC` | contracts/verifier/src/contract.rs:51-66 | Where pairing with delta is injective, the key, the inputs, A and B leave only one C that is accepted |
| `Groth16Trapdoor.HonestProofIsAccepted` | contracts/verifier/src/contract.rs:35-66 | A key and a proof built from a trapdoor and a satisfying assignment by the Groth16 formulas satisfy the equation, for all inputs and random exponents |
| `Groth16Trapdoor.GammaAndDeltaDiffer` | contracts/verifier/src/contract.rs:57-63 | With integers for points, a proof that is accepted and is not when gamma and delta change places |
| `Groth16Verifier.EmbeddedKeyTakesTwoNullifiers` | circuits/keys/policy_tx_2_2_vk_const.rs:14 | With the embedded key's ten points the count fits exactly proofs with two nullifiers |
| `Amounts.PublicAmount` | contracts/pool/src/contract.rs:658-677 | Defined exactly below 2^248 in absolute value, a field element, and congruent to the external amount |
| `Amounts.PublicAmountIsInjective` | contracts/pool/src/contract.rs:658-677 | Different external amounts never share a public amount |
| `Amounts.BalanceLifts` | circuits/src/policyTransaction.circom:168 | For notes below 2^248 the balance equation modulo the field holds exactly when it holds in the integers |
| `Amounts.FeeAmount` | contracts/pool/src/contract.rs:683-688 | Fails exactly when the product leaves 128 bits; otherwise the fee is the share rounded down and never more than the amount |
| `PoolContract.Pool.Deploy` | contracts/pool/src/contract.rs:69-98 | Accepts exactly a fee up to 10000 basis points and depths 1 to 32, and starts from the initial state |
| `PoolContract.Pool.EnsureProofFieldElements` | contracts/pool/src/contract.rs:603-618 | Accepts exactly proofs whose every public value is a field element |
| `PoolContract.Pool.EnsureNullifiersUnspent` | contracts/pool/src/contract.rs:624-638 | Accepts exactly nullifiers that are unspent and pairwise different |
| `PoolContract.Pool.SpendNullifiersOnce` | contracts/pool/src/contract.rs:641-651 | Marks all nullifiers or none, and all exactly when they are unspent and pairwise different |
| `PoolContract.Pool.CheckBeforeCalls` | contracts/pool/src/contract.rs:439-458 | The checks that need no other contract, in order, with the error of the first that fails |
| `PoolContract.Pool.VerifyProof` | contracts/pool/src/contract.rs:593-601 | Passes exactly a nonempty proof that the verifier accepts on the public inputs |
| `PoolContract.Pool.CommitWrites` | contracts/pool/src/contract.rs:473-519 | All storage writes of a settlement: nullifiers, commitments, leaves and the planned payout, or the first error |
| `PoolContract.Pool.PayAndAnnounce` | contracts/pool/src/contract.rs:521-589 | Both payouts and then the events, writing only balances and the log |
| `PoolContract.Pool.SettleCall` | contracts/pool/src/contract.rs:433-590 | The in-place settlement computes `Settlement.Settle` on the abstract state |
| `PoolContract.Pool.Transact` | contracts/pool/src/contract.rs:152-176 | Refines `Settlement.Transact`; a refused call, even one that had already written, leaves the state it found; no call to a valid pool ends in the errors of uneven index, initialization or levels or in the hash range panic, and overflow means the fee product leaves 128 bits |
| `PoolContract.Pool.Exit` | contracts/pool/src/contract.rs:195-212 | Refines `Settlement.ExitPool`, with the same rollback and the same errors that never happen |
| `Acceptance.TransactIsForetold` | contracts/pool/src/contract.rs:152-176 | `transact` accepts exactly the calls with nothing wrong, and answers the others with the error of the first thing wrong, both told from the call and the state alone |
| `Acceptance.ExitIsForetold` | contracts/pool/src/contract.rs:195-212 | The same of `exit` |
| `Acceptance.AcceptedExactlyWhen` | contracts/pool/src/contract.rs:433-590 | In every reachable state `transact` accepts if and only if every condition of a list holds: authorization, deposit, statement, allowlist, proof, new outputs, room, and a withdrawal that fits and is covered |
| `Acceptance.RefusalsOverRuns` | contracts/pool/src/error.rs:8-46 | Over every run each refused call was refused for the first thing wrong with it |
| `Acceptance.LedgerOverRuns` | contracts/pool/src/contract.rs:521-532 | Over every run every address, whoever coincides with whom, holds what it began with and what the accepted steps moved to it: deposits from senders, payouts to recipients, fees to the fee recipient |
| `PoolRuns.SettleEffect` | contracts/pool/src/contract.rs:433-590 | Everything an accepted settlement checked, and exactly what it adds to nullifiers, commitments and leaves |
| `PoolRuns.NotesAreSpentOnce` | contracts/pool/src/contract.rs:484-488 | Over every run the nullifiers of all accepted calls have no repeats and are exactly the stored set |
| `PoolRuns.EachCallSpendsTwo` | contracts/verifier/src/contract.rs:31-33 | Under the embedded key every accepted call spends exactly two nullifiers, so their number is twice the accepted calls |
| `PoolRuns.LeavesAlwaysMatch` | contracts/pool/src/contract.rs:476-519 | In every reachable state the commitment map is the set of leaves, and leaves are pairwise different field elements |
| `PoolRuns.LeavesAreTheAcceptedOutputs` | contracts/pool/src/contract.rs:507-519 | In every run the leaves are the outputs of the accepted transactions, in order, and exits add none |
| `PoolRuns.TwoLeavesPerTransaction` | contracts/pool/src/contract.rs:507-519 | In every run there are two leaves per accepted transaction, within the capacity |
| `PoolRuns.EventsRebuildTheState` | contracts/pool/src/contract.rs:534-589 | In every run replaying the log rebuilds the leaves with their indices and the spent set |
| `RunEvents.EveryLeafIsAnnounced` | contracts/pool/src/contract.rs:559-571 | Over every run leaf i is announced once, at position i, with the encrypted output 0 or 1 of the call that inserted it as its output 0 or 1 |
| `RunEvents.EverySpendIsClosed` | contracts/pool/src/contract.rs:486-589 | Over every run each nullifier has, in order, one nullifier event and one settlement or exit event with its call's outputs where the tree holds them, external and public amounts, and a recipient exactly for a withdrawal |
| `PoolRuns.FullAfterHalfTheLeaves` | contracts/pool/src/merkle_with_history.rs:198-208 | In every run the pool is full exactly after 2^(levels-1) accepted transactions |
| `PoolRuns.FullIsAbsorbing` | contracts/pool/src/contract.rs:203-211 | A full pool stays full whatever runs |
| `PoolRuns.TransactionsPrecedeExits` | contracts/pool/src/contract.rs:178-212 | In every run each accepted transaction comes before each accepted exit |
| `PoolMoney.PayoutSplitsTheAmount` | contracts/pool/src/contract.rs:490-501 | Recipient amount and fee add up to the withdrawal exactly, and nothing is planned otherwise |
| `PoolMoney.CoveredPayoutCompletes` | contracts/pool/src/contract.rs:521-537 | Once paying has begun only the token can refuse, and it does not when the balance covers the amount; for a recipient other than the pool, exactly then |
| `PoolMoney.NoLateFailure` | contracts/pool/src/contract.rs:433-590 | A call that has passed every check and committed can fail only in the token, and not at all when covered |
| `PoolMoney.BalanceIsTotalFlow` | contracts/pool/src/contract.rs:152-212 | Over every run the balance is the sum of the accepted external amounts and outside transfers, if the pool is not its own counterparty |
| `PoolMoney.FeesPaidAreTheShares` | contracts/pool/src/contract.rs:496-504 | Over every run the fees that accepted calls paid are the rounded shares of the withdrawals |
| `PoolMoney.FeeRecipientIsPaid` | contracts/pool/src/contract.rs:528-531 | Over every run the fee recipient's balance grows by exactly the fees paid, if it is no other party of the run |
| `PoolMoney.FeesOverRuns` | contracts/pool/src/contract.rs:683-688 | Over every run with k withdrawals totalling W and fees F paid: 0 <= bps * W - 10000 * F <= 9999 * k |
| `Circuit.RelationOnProof` | circuits/src/policyTransaction.circom:26-172 | What the circuit's relation says of a pool proof, read through the verifier's input order |
| `Circuit.SameNullifierSameSpend` | circuits/src/policyTransaction.circom:76-90 | A nullifier determines the commitment, the position and the key it was derived from |
| `Circuit.SameCommitmentSameNote` | circuits/src/policyTransaction.circom:69-74 | A commitment determines the amount, the key and the blinding |
| `Solvency.InputSpendsUnspentNote` | circuits/src/policyTransaction.circom:63-105 | Every input of value spends, in full, a note of the tree that no earlier accepted call spent |
| `Solvency.AmountsBalance` | circuits/src/policyTransaction.circom:164-168 | Inputs, outputs and external amount of an accepted call balance in the integers, and a withdrawal is at most the value outstanding |
| `Solvency.ValueIsConserved` | contracts/pool/src/contract.rs:152-212 | Over every run, unspent value plus value forfeited by exits plus outside gifts is the net flow of tokens |
| `Solvency.PoolIsSolvent` | contracts/pool/src/contract.rs:152-212 | In every reachable state the pool's balance is at least the value of all unspent notes |
| `Solvency.BalanceIsAccountedFor` | contracts/pool/src/contract.rs:178-194 | The balance is exactly the opening balance, gifts, unspent notes and forfeited outputs: exits only ever leave value behind |
| `Solvency.PayoutsAreCovered` | contracts/pool/src/contract.rs:521-532 | In every reachable state a call with a witness that reaches its payouts completes |
| `Solvency.NullifiersAreExplained` | contracts/pool/src/contract.rs:484-488 | In every run each stored nullifier is one that an input of an accepted call derives |
| `Solvency.SpentMeansNullified` | contracts/pool/src/contract.rs:641-651 | A note of value counts as spent exactly when the nullifier of its owner's key is stored |
| `Compliance.SpendersAreEnrolled` | contracts/pool/src/contract.rs:463-466 | After any run of the allowlist on its own tree, an accepted call spends only with keys whose leaf the allowlist inserted, or whose leaf is the padding itself |
| `Interleaving.InterleavingsAreSafe` | contracts/pool/src/contract.rs:446-532 | With any calls nested at every external call and any token balances, spent set and nullifier log agree without repeats, and leaves, commitments and capacity stay right, in the state and in every snapshot |
| `Interleaving.NoWritesAfterPayout` | contracts/pool/src/contract.rs:521-589 | From the first payout on, a call writes no nullifier, commitment or leaf |
| `Interleaving.CompletedCallIsSettled` | contracts/pool/src/contract.rs:433-590 | When a call returns, however it was interleaved, its own nullifiers and outputs are in the state it leaves |
| `Interleaving.UndisturbedCallIsTheEntrypoint` | contracts/pool/src/contract.rs:152-212 | With honest answers and nothing in between, the cut-up call ends exactly as `transact` or `exit` does |
| `InterleavedLog.AnnouncedOrDue` | contracts/pool/src/contract.rs:534-589 | In every interleaving each leaf, with its position, is announced once or is due from a call still paying, and nothing else is |
| `InterleavedLog.LogByPositionIsTheLeaves` | contracts/pool/src/event.rs:9-23 | Whenever no call is suspended, the log read by position is the leaves |
| `InterleavedLog.InOrderUnlessOverlapped` | contracts/pool/src/contract.rs:521-589 | Whenever no call is suspended, the log read in order replays to the state exactly when no kept insertion happened above a call that was paying out and inserting |
| `InterleavedLog.NestedInsertionBreaksTheOrder` | contracts/pool/src/contract.rs:521-589 | Seven concrete moves after which the log read in order does not give the leaves back |
| `ReentrantPool.Executor.Step` | contracts/pool/src/contract.rs:433-590 | One move of a host that suspends the contract at its external calls and restores snapshots does to the class what it does to the machine |
| `ReentrantPool.Executor.Run` | contracts/pool/src/contract.rs:433-590 | Any interleaving run on the class leaves it valid and in the machine's state |
| `ReentrantPool.DeployAndRun` | contracts/pool/src/merkle_with_history.rs:122-288 | From deployment through any interleaving, frontier and ring are valid, the last root is the complete tree's over the kept leaves, and the machine is safe |
| `NestedSolvency.InterleavingsAreSolvent` | contracts/pool/src/contract.rs:164-175 | In every interleaving with a token honest to the pool, the balance covers unspent notes, deposits not yet turned into notes and payouts still owed |
| `NestedSolvency.NestedPayoutsAreCovered` | contracts/pool/src/contract.rs:521-532 | However deep the nesting, the transfer a paying call waits for goes through |
| `Leaving.HoldersCanLeave` | contracts/pool/src/contract.rs:178-194 | In every reachable full state, unspent notes whose value is all withdrawn leave in full, and `exit` accepts exactly when the amount and the fee product fit 128 bits |
| `Leaving.LargeNoteIsRefused` | contracts/pool/src/contract.rs:683-688 | From 2 basis points on, a withdrawal of 2^126 is refused with an overflow |
| `Elimination.Forward` | poseidon2/src/utils.rs:10-55 | The forward pass finds every pivot exactly when all leading blocks are regular, and tracks the row operations |
| `Elimination.Backward` | poseidon2/src/utils.rs:57-91 | The backward pass completes a left inverse; the extra writes of a debug build only tidy the eliminated matrix |
| `Elimination.MatInverse` | poseidon2/src/utils.rs:10-92 | Returns a matrix exactly when all leading blocks are regular, and it is a two-sided inverse, in a debug build or not |
| `Elimination.InverseIsUnique` | poseidon2/src/utils.rs:10-92 | There is only one two-sided inverse, so debug writes cannot change the result |
| `Elimination.ExchangeIsRefused` | poseidon2/src/utils.rs:44 | The exchange matrix is invertible and not regular in its leading block |
| `RoundConstants.MatVecMul` | poseidon2/src/poseidon2/poseidon2_params.rs:73-85 | The accumulating loops compute the matrix-vector product |
| `RoundConstants.MovedConstantsPreserveMeaning` | poseidon2/poseidon2_rust_params.sage.py:526-541 | For every S-box, state and constants, rounds with full constants equal one addition followed by rounds that add to entry 0 after the S-box |
| `RoundConstants.EquivalentRoundConstants` | poseidon2/src/poseidon2/poseidon2_params.rs:48-71 | The table it returns gives the same partial rounds on every state and S-box; it panics exactly when the matrix has no leading-block inverse |
| `Poseidon2Layers.M4IsDense` | poseidon2/src/poseidon2/poseidon2.rs:84-116 | The additions and doublings of one block are the 4 by 4 matrix of the specification |
| `Poseidon2Layers.ExternalIsDense` | poseidon2/src/poseidon2/poseidon2.rs:118-162 | For every supported size the cheap external layer is multiplication by the dense matrix |
| `Poseidon2Layers.InternalIsMatrix` | poseidon2/src/poseidon2/poseidon2.rs:164-207 | On every state the internal layer multiplies by [2, 1; 1, 3] for t = 2, by [2, 1, 1; 1, 2, 1; 1, 1, 3] for t = 3, and by ones plus the given diagonal for the other sizes |
| `Poseidon2Layers.InternalIsDense` | poseidon2/src/poseidon2/poseidon2.rs:164-207 | The internal layer is ones plus the given diagonal on every state exactly when that diagonal is [1, 2] for t = 2 and [1, 1, 2] for t = 3 |
| `Poseidon2Layers.ZeroDiagonalIsIgnored` | poseidon2/src/poseidon2/poseidon2.rs:168-176 | With t = 2 and a diagonal of zeros the layer is not the matrix of that diagonal |
| `Poseidon2.SboxIsPower` | poseidon2/src/poseidon2/poseidon2.rs:55-82 | The squarings and multiplications raise to the power d |
| `Poseidon2.MatmulM4` | poseidon2/src/poseidon2/poseidon2.rs:84-116 | In place, every block of four is transformed |
| `Poseidon2.MatmulExternal` | poseidon2/src/poseidon2/poseidon2.rs:118-162 | In place, multiplication by the dense external matrix, refusing exactly the sizes without one |
| `Poseidon2.MatmulInternal` | poseidon2/src/poseidon2/poseidon2.rs:164-207 | In place, multiplication by the written-out matrix for t = 2 and t = 3 and by ones plus the diagonal otherwise, refusing exactly the sizes without one |
| `Poseidon2.Permutation` | poseidon2/src/poseidon2/poseidon2.rs:21-49 | In place, every round of the schedule; panics exactly on a wrong size or degree; equals the dense reference when partial rows are zero after entry 0 |
| `Poseidon2.PermutationIsReference` | poseidon2/poseidon2_rust_params.sage.py:584-624 | For every supported size and any rounds the permutation is one multiplication, half of the full rounds, the partial rounds and the other half, with dense matrices |
| `Poseidon2.DegreeElevenHasNoSbox` | poseidon2/src/poseidon2/poseidon2_params.rs:30-31 | Among the degrees that the constructor accepts, exactly 11 has no S-box |
| `Poseidon2.NewParamsSplitsTheRounds` | poseidon2/src/poseidon2/poseidon2_params.rs:21-45 | Accepts exactly degrees 3, 5, 7 and 11 and an even number of full rounds, and returns the given parameters with half of those on each side |
| `Poseidon2Inverse.ExternalUndone` | poseidon2/src/poseidon2/poseidon2.rs:118-162 | The external layer of every supported size has a two-sided inverse where its divisors are nonzero |
| `Poseidon2Inverse.InternalUndone` | poseidon2/src/poseidon2/poseidon2.rs:164-207 | The internal layer has a two-sided inverse where its diagonal allows one |
| `Poseidon2Inverse.SmallSizesInvertible` | poseidon2/src/poseidon2/poseidon2.rs:118-188 | For t = 2 and t = 3 both layers are invertible where 2, 3, 5 and 7 are not zero |
| `Poseidon2Inverse.PermutationIsBijective` | poseidon2/src/poseidon2/poseidon2.rs:21-49 | For any rounds and constants the permutation undone is the identity, and so is the undoing permuted |
| `Poseidon2Inverse.SmallPermutationIsBijective` | poseidon2/src/poseidon2/poseidon2.rs:21-82 | For t = 2 and t = 3, where 2, 3, 5 and 7 are not zero, the permutation is one to one and onto for any diagonal, constants and rounds |

## Left out

- The pairing itself, BN254 points and the host's Poseidon2 permutation: parameters of the model, with the laws used stated as preconditions.
- Circuit proving: that an accepted proof has a witness is the hypothesis `Sound`; the arithmetic gates below the relation are not modelled.
- That BN254's modulus is prime, and so that its residues are a field and x^5 has an inverse: preconditions of the Poseidon2 part, which is over any field.
- `hash_ext_data`: an arbitrary function of the external data; Keccak and XDR are not modelled.
- Authorization: a boolean of each call; `upgrade`, `register`, the admin setters and the plain getters would only add one-branch members.
- Changes of verifier or allowlist address during a run: their answers are inputs of each call instead.
- The closed `deposit` and the width conversion of amounts: modelled, and only as strong as their bodies.
- The token's own limits: crediting a balance beyond 128 bits is not refused by the modelled ledger.
- EquivalentRoundConstants: needs at least one partial round and rows of the matrix's size, as the source's indexing does; the panics on other shapes are not modelled.
- MatInverse: takes a nonempty square matrix; the source indexes out of bounds on others.
- Permutation: takes tables with what the rounds read (a row of t entries for a full round, one entry for a partial one, more being ignored) and a diagonal of t entries; the panic on a missing row or entry, the truncation of the state by a short row of a full round and surplus diagonal entries are not modelled.
- SpendersAreEnrolled: covers the allowlist while it keeps its own tree; after a handover the operator's root is whatever was published. That no member leaf hashes to the padding is not assumed.
- `mat_transpose`, the constant tables, the key bytes and `poseidon2_hash2` beyond its use as a parameter of the circuit.
- The faucet, `circuit-keys`, the build scripts, `contracts/types`, the services, the tools and the mock verifier: input and output, or single guards.
- The parameter search in the Sage script: only its reference permutation and matrices are used.
