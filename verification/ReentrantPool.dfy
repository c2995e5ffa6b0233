/**
 The pool contract itself under nesting: a host that suspends the class at each
 of its external calls, runs other calls meanwhile, and puts a failed call's
 snapshot back. It refines the machine of `Interleaving`, so the stored frontier
 and ring of roots stay those of the complete tree in every interleaving.
 */
module ReentrantPool {
  import opened Wrappers
  import opened MerkleSpec
  import opened PoolTypes
  import opened Amounts
  import opened Settlement
  import opened MerkleTree
  import opened PoolContract
  import opened Interleaving

  /** A suspended call and the storage to put back if it fails. */
  datatype Suspended = Suspended(call: Call, insertOutputs: bool, phase: Phase, storage: PoolStorage)

  /** How a resumed call leaves the contract. */
  datatype Outcome = Suspends(phase: Phase) | Returns | Fails

  class Executor {
    const pool: Pool
    var frames: seq<Suspended>
    /** What the suspended calls and their snapshots stand for. */
    ghost var stack: seq<Frame>

    ghost predicate Stands(s: Suspended, f: Frame)
      requires |pool.tree.zeros| > 0
    {
      && f.call == s.call && f.insertOutputs == s.insertOutputs && f.phase == s.phase
      && FrameChecked(f) && pool.Holds(s.storage, f.saved)
    }

    ghost predicate Valid()
      reads this, pool, pool.tree
    {
      && pool.Valid() && |frames| == |stack|
      && forall k :: 0 <= k < |stack| ==> Stands(frames[k], stack[k])
    }

    ghost function Abstract(): Machine
      requires Valid()
      reads this, pool, pool.tree
    {
      Machine(pool.Abstract(), stack)
    }

    constructor (pool: Pool)
      requires pool.Valid()
      ensures Valid() && this.pool == pool && Abstract() == Machine(pool.Abstract(), [])
    {
      this.pool := pool;
      frames, stack := [], [];
    }

    /** The checks of `settle` before its first external call. */
    method CheckThenSuspend(call: Call) returns (o: Outcome)
      requires pool.Valid()
      ensures Matches(CheckThenAsk(pool.Env(), pool.Abstract(), call), o, pool.Abstract())
      ensures o.Suspends? ==> ProofInField(call.proof)
    {
      var r := pool.CheckBeforeCalls(call.proof, call.ext);
      return if r.Ok? then Suspends(AskingRoot) else Fails;
    }

    /** An entrypoint up to its first external call; it has written nothing yet. */
    method BeginCall(call: Call, insertOutputs: bool) returns (o: Outcome)
      requires pool.Valid()
      ensures Matches(Begin(pool.Env(), pool.cfg, pool.Abstract(), call, insertOutputs), o, pool.Abstract())
      ensures o.Suspends? && !o.phase.Depositing? ==> ProofInField(call.proof)
      ensures !o.Returns?
    {
      hide CheckStatement;
      if !insertOutputs {
        var allowed := pool.CheckExitCall(call);
        if allowed.Err? {
          return Fails;
        }
        o := CheckThenSuspend(call);
        return;
      }
      if !call.authorized {
        return Fails;
      }
      if call.ext.extAmount <= 0 {
        o := CheckThenSuspend(call);
        return;
      }
      var amount := pool.CheckDeposit(call.ext);
      return if amount.Ok? then Suspends(Depositing) else Fails;
    }

    /** The end of `settle`. */
    method Finish(call: Call, payout: Option<Payout>, indices: Option<(nat, nat)>, ghost f: Frame) returns (o: Outcome)
      requires pool.Valid() && f.call == call
      modifies pool`events
      ensures pool.Valid()
      ensures Matches(Close(old(pool.Abstract()), f, payout, indices), o, pool.Abstract())
    {
      hide Announce;
      var r := pool.CloseCall(call.proof, call.ext, payout, indices);
      return if r.Ok? then Returns else Fails;
    }

    /** From the recipient's payout to the fee's, if there is one. */
    method GoToFee(call: Call, payout: Option<Payout>, indices: Option<(nat, nat)>, ghost f: Frame) returns (o: Outcome)
      requires pool.Valid() && f.call == call
      modifies pool`events
      ensures pool.Valid()
      ensures Matches(ToFee(old(pool.Abstract()), f, payout, indices), o, pool.Abstract())
    {
      hide Close;
      if payout.Some? && payout.value.fee > 0 {
        return Suspends(PayingFee(payout.value, indices));
      }
      o := Finish(call, payout, indices, f);
    }

    /** The verifier's answer: all the writes, up to the first payout. */
    method TakeVerdict(call: Call, insertOutputs: bool, verdict: Result<bool, Groth16Error>, ghost f: Frame) returns (o: Outcome)
      requires pool.Valid() && f.call == call && f.insertOutputs == insertOutputs && ProofInField(call.proof)
      modifies pool, pool.tree
      ensures pool.Valid()
      ensures Matches(GotVerdict(pool.cfg, old(pool.Abstract()), f, verdict), o, pool.Abstract())
    {
      hide Commit, ToFee;
      if verdict != Ok(true) {
        return Fails;
      }
      var r, payout, indices := pool.CommitWrites(call.proof, call.ext, insertOutputs);
      if r.Err? {
        return Fails;
      }
      if payout.Some? && payout.value.recipientAmount > 0 {
        return Suspends(PayingRecipient(payout.value, indices));
      }
      o := GoToFee(call, payout, indices, f);
    }

    /** A token's answer. */
    method TakeBalances(call: Call, phase: Phase, balances: map<Address, nat>, ghost f: Frame) returns (o: Outcome)
      requires pool.Valid() && f.call == call && f.phase == phase
      modifies pool
      ensures pool.Valid()
      ensures Matches(Resume(pool.Env(), pool.cfg, old(pool.Abstract()), f, TokenReturns(balances)), o, pool.Abstract())
      ensures o.Suspends? && phase.Depositing? ==> ProofInField(call.proof)
    {
      hide CheckThenAsk, ToFee, Close;
      pool.SetLedger(balances);
      match phase
      case Depositing => o := CheckThenSuspend(call);
      case PayingRecipient(payout, indices) => o := GoToFee(call, Some(payout), indices, f);
      case PayingFee(payout, indices) => o := Finish(call, Some(payout), indices, f);
      case AskingRoot => o := Fails;
      case Verifying => o := Fails;
    }

    /** The top call goes on with the answer it was waiting for. */
    method ResumeTop(top: Suspended, move: Move, ghost f: Frame) returns (o: Outcome)
      requires pool.Valid() && !move.Enter? && !move.LedgerMoves?
      requires f.call == top.call && f.insertOutputs == top.insertOutputs && f.phase == top.phase && FrameChecked(f)
      modifies pool, pool.tree
      ensures pool.Valid()
      ensures Matches(Resume(pool.Env(), pool.cfg, old(pool.Abstract()), f, move), o, pool.Abstract())
      ensures o.Suspends? ==> FrameChecked(f.(phase := o.phase))
    {
      hide GotVerdict, CheckThenAsk, ToFee, Close;
      match move
      case TokenReturns(balances) => o := TakeBalances(top.call, top.phase, balances, f);
      case RootIs(root) =>
        if !top.phase.AskingRoot? || root != top.call.proof.aspMembershipRoot || top.call.proof.proof.IsEmpty() {
          return Fails;
        }
        return Suspends(Verifying);
      case VerdictIs(verdict) =>
        if !top.phase.Verifying? {
          return Fails;
        }
        o := TakeVerdict(top.call, top.insertOutputs, verdict, f);
      case CalleeTraps => o := Fails;
    }

    /** One move of the host: a new call, a ledger change, or an answer to the call on top. */
    method Step(move: Move)
      requires Valid()
      modifies this, pool, pool.tree
      ensures Valid()
      ensures Abstract() == Apply(pool.Env(), pool.cfg, old(Abstract()), move)
    {
      if move.Enter? {
        Push(move.call, move.insertOutputs);
      } else if move.LedgerMoves? {
        pool.SetLedger(move.balances);
      } else if frames != [] {
        Answer(move);
      }
    }

    method Push(call: Call, insertOutputs: bool)
      requires Valid()
      modifies this
      ensures Valid()
      ensures Abstract() == Apply(pool.Env(), pool.cfg, old(Abstract()), Enter(call, insertOutputs))
    {
      hide Begin, HoldsTree;
      var o := BeginCall(call, insertOutputs);
      if o.Suspends? {
        pool.SnapshotHolds();
        var storage := pool.Snapshot();
        frames := frames + [Suspended(call, insertOutputs, o.phase, storage)];
        stack := stack + [Frame(call, insertOutputs, o.phase, pool.Abstract())];
      }
    }

    method Answer(move: Move)
      requires Valid() && !move.Enter? && !move.LedgerMoves? && frames != []
      modifies this, pool, pool.tree
      ensures Valid()
      ensures Abstract() == Apply(pool.Env(), pool.cfg, old(Abstract()), move)
    {
      hide Resume, HoldsTree, FrameChecked, Pool.Holds;
      var n := |frames| - 1;
      var top := frames[n];
      ghost var f := stack[n];
      assert Stands(top, f);
      var o := ResumeTop(top, move, f);
      match o {
        case Suspends(phase) =>
          frames := frames[..n] + [top.(phase := phase)];
          stack := stack[..n] + [f.(phase := phase)];
        case Returns =>
          frames, stack := frames[..n], stack[..n];
        case Fails =>
          pool.Restore(top.storage, f.saved);
          frames, stack := frames[..n], stack[..n];
      }
    }

    /** Any interleaving, run on the contract. */
    method Run(moves: seq<Move>)
      requires Valid()
      modifies this, pool, pool.tree
      ensures Valid()
      ensures Abstract() == AfterMoves(pool.Env(), pool.cfg, old(Abstract()), moves)
    {
      hide Apply;
      var i := 0;
      assert moves[..0] == [];
      while i < |moves|
        invariant 0 <= i <= |moves| && Valid()
        invariant Abstract() == AfterMoves(pool.Env(), pool.cfg, old(Abstract()), moves[..i])
      {
        Step(moves[i]);
        assert moves[..i + 1][..i] == moves[..i];
        i := i + 1;
      }
      assert moves[..i] == moves;
    }
  }

  /** The class came to the same point, in the same state, as this progress. */
  ghost predicate Matches(r: Progress, o: Outcome, s: State) {
    match r
    case Waiting(s', phase) => o == Suspends(phase) && s == s'
    case Done(s') => o == Returns && s == s'
    case Failed => o == Fails
  }

  /**
   A new pool under any interleaving: whatever nests, its storage is valid, the
   last root it reports is the complete tree's over all kept leaves, and what
   `Interleaving` proves of the machine is true of the contract.
   */
  method DeployAndRun(cfg: Config, hashExtData: ExtData -> nat, h: Hash, zeros: seq<nat>, levels: nat,
                      balances: map<Address, nat>, moves: seq<Move>)
    returns (pool: Pool, root: nat, ghost m: Machine)
    requires Closed(h) && ZeroTable(h, zeros) && cfg.feeBps <= MAX_FEE_BPS && 1 <= levels <= 32
    ensures m == AfterMoves(Host(h, zeros[0], hashExtData), cfg, Machine(Initial(levels).(balances := balances), []), moves)
    ensures pool.Valid() && pool.Abstract() == m.state && MachineSafe(m)
    ensures root == Root(h, zeros[0], levels, m.state.leaves)
  {
    hide AfterMoves, MachineSafe, HoldsTree;
    var deployed := Pool.Deploy(cfg, hashExtData, h, zeros, levels, balances);
    pool := deployed.value;
    var host := new Executor(pool);
    ghost var start := pool.Abstract();
    host.Run(moves);
    m := host.Abstract();
    InterleavingsAreSafe(pool.Env(), cfg, start, moves);
    var last := pool.tree.GetLastRoot();
    root := last.value;
    LevelsNeverChange(pool.Env(), cfg, start, moves);
  }
}
