/**
 What the order of writes in `settle` guarantees by itself. The host refuses
 re-entry, so none of the nesting below can happen as deployed; here it is
 allowed. `settle` is cut at every call it makes to another contract, with any
 other pool calls run at each cut. Calls nest as on the host's stack, and a call
 that fails takes back everything since it began, nested calls included. The
 token is not trusted here: its ledger may change in any way at any time.
 */
module Interleaving {
  import opened Wrappers
  import opened PoolTypes
  import opened Amounts
  import opened VerifierBoundary
  import opened Settlement
  import opened PoolRuns

  /** Which external call a suspended entrypoint is waiting for. */
  datatype Phase =
    | Depositing
    | AskingRoot
    | Verifying
    | PayingRecipient(payout: Payout, indices: Option<(nat, nat)>)
    | PayingFee(payout: Payout, indices: Option<(nat, nat)>)

  /** A suspended call and the storage as it was when the call began. */
  datatype Frame = Frame(call: Call, insertOutputs: bool, phase: Phase, saved: State)

  datatype Machine = Machine(state: State, stack: seq<Frame>)

  datatype Move =
    | Enter(call: Call, insertOutputs: bool)
    | TokenReturns(balances: map<Address, nat>)
    | LedgerMoves(balances: map<Address, nat>)
    | RootIs(root: nat)
    | VerdictIs(verdict: Result<bool, Groth16Error>)
    | CalleeTraps

  /** How far a call gets before it needs another contract. */
  datatype Progress = Waiting(state: State, phase: Phase) | Done(state: State) | Failed

  // ---------- The segments of `transact`, `exit` and `settle`

  ghost function CheckThenAsk(host: Host, s: State, call: Call): Progress {
    if CheckStatement(host, s, call.proof, call.ext).Ok? then Waiting(s, AskingRoot) else Failed
  }

  ghost function Begin(host: Host, cfg: Config, s: State, call: Call, insertOutputs: bool): Progress {
    if !insertOutputs then
      if CheckExit(s, call).Ok? then CheckThenAsk(host, s, call) else Failed
    else if !call.authorized then Failed
    else if call.ext.extAmount <= 0 then CheckThenAsk(host, s, call)
    else if call.ext.extAmount > cfg.maximumDeposit || ToI128NonNegative(call.ext.extAmount).Err? then Failed
    else Waiting(s, Depositing)
  }

  function Close(s: State, f: Frame, payout: Option<Payout>, indices: Option<(nat, nat)>): Progress {
    match Announce(s, f.call.proof, f.call.ext, payout, indices)
    case Err(_) => Failed
    case Ok(s') => Done(s')
  }

  function ToFee(s: State, f: Frame, payout: Option<Payout>, indices: Option<(nat, nat)>): Progress {
    if payout.Some? && payout.value.fee > 0 then Waiting(s, PayingFee(payout.value, indices)) else Close(s, f, payout, indices)
  }

  function ToRecipient(s: State, f: Frame, payout: Option<Payout>, indices: Option<(nat, nat)>): Progress {
    if payout.Some? && payout.value.recipientAmount > 0 then Waiting(s, PayingRecipient(payout.value, indices))
    else ToFee(s, f, payout, indices)
  }

  function GotRoot(s: State, f: Frame, root: nat): Progress {
    if CheckAllowlist(f.call.proof, root).Err? || f.call.proof.proof.IsEmpty() then Failed else Waiting(s, Verifying)
  }

  function GotVerdict(cfg: Config, s: State, f: Frame, verdict: Result<bool, Groth16Error>): Progress {
    if verdict != Ok(true) then Failed
    else match Commit(cfg, s, f.call.proof, f.call.ext, f.insertOutputs)
      case Err(_) => Failed
      case Ok(c) => ToRecipient(c.state, f, c.payout, c.indices)
  }

  /** What the top frame does when its external call comes back; a wrong kind of answer is a trap. */
  ghost function Resume(host: Host, cfg: Config, s: State, f: Frame, move: Move): Progress {
    match move
    case TokenReturns(balances) =>
      var s' := s.(balances := balances);
      (match f.phase
       case Depositing => CheckThenAsk(host, s', f.call)
       case PayingRecipient(payout, indices) => ToFee(s', f, Some(payout), indices)
       case PayingFee(payout, indices) => Close(s', f, Some(payout), indices)
       case AskingRoot => Failed
       case Verifying => Failed)
    case RootIs(root) => if f.phase.AskingRoot? then GotRoot(s, f, root) else Failed
    case VerdictIs(verdict) => if f.phase.Verifying? then GotVerdict(cfg, s, f, verdict) else Failed
    case CalleeTraps => Failed
    case LedgerMoves(_) => Failed
    case Enter(_, _) => Failed
  }

  ghost function Apply(host: Host, cfg: Config, m: Machine, move: Move): Machine {
    match move
    case Enter(call, insertOutputs) =>
      (match Begin(host, cfg, m.state, call, insertOutputs)
       case Waiting(s, phase) => Machine(s, m.stack + [Frame(call, insertOutputs, phase, m.state)])
       case Done(s) => Machine(s, m.stack)
       case Failed => m)
    case LedgerMoves(balances) => m.(state := m.state.(balances := balances))
    case _ =>
      if m.stack == [] then m
      else Proceed(m, Resume(host, cfg, m.state, m.stack[|m.stack| - 1], move))
  }

  /** The top frame waits again, returns, or fails and takes everything since its start with it. */
  function Proceed(m: Machine, r: Progress): Machine
    requires m.stack != []
  {
    var n := |m.stack| - 1;
    var top := m.stack[n];
    match r
    case Waiting(s, phase) => Machine(s, m.stack[..n] + [top.(phase := phase)])
    case Done(s) => Machine(s, m.stack[..n])
    case Failed => Machine(top.saved, m.stack[..n])
  }

  ghost function AfterMoves(host: Host, cfg: Config, m: Machine, moves: seq<Move>): Machine {
    if moves == [] then m
    else Apply(host, cfg, AfterMoves(host, cfg, m, moves[..|moves| - 1]), moves[|moves| - 1])
  }

  // ---------- What every interleaving keeps

  /** Leaves agree with commitments, and every spend in the log is of a different nullifier. */
  ghost predicate Safe(s: State) {
    && LeavesMatchCommitments(s)
    && NoRepeats(NullifierLog(s.events)) && s.nullifiers == Elements(NullifierLog(s.events))
  }

  /** `s'` has all the leaves and nullifiers of `s`, in place. */
  predicate Extends(s: State, s': State) {
    && s'.levels == s.levels && s.nullifiers <= s'.nullifiers
    && |s.leaves| <= |s'.leaves| && s'.leaves[..|s.leaves|] == s.leaves
  }

  /** The outputs of a call are in the tree at the announced positions, and its nullifiers are stored. */
  ghost predicate InForce(p: Proof, indices: Option<(nat, nat)>, s: State) {
    && Elements(p.inputNullifiers) <= s.nullifiers
    && (indices.Some? ==>
          && indices.value.0 < |s.leaves| && s.leaves[indices.value.0] == p.outputCommitment0
          && indices.value.1 < |s.leaves| && s.leaves[indices.value.1] == p.outputCommitment1)
  }

  predicate Paying(f: Frame) {
    f.phase.PayingRecipient? || f.phase.PayingFee?
  }

  /** Once a call is paying out, its writes are in force in `s`. */
  ghost predicate FrameInForce(f: Frame, s: State) {
    Paying(f) ==> InForce(f.call.proof, f.phase.indices, s) && (f.phase.indices.Some? <==> f.insertOutputs)
  }

  /** Past the first checks, the proof's values are field elements. */
  predicate FrameChecked(f: Frame) {
    !f.phase.Depositing? ==> ProofInField(f.call.proof)
  }

  /** A call that has run to its end left its mark. */
  predicate Settled(f: Frame, s: State) {
    && Elements(f.call.proof.inputNullifiers) <= s.nullifiers
    && (f.insertOutputs ==> f.call.proof.outputCommitment0 in s.leaves && f.call.proof.outputCommitment1 in s.leaves)
  }

  lemma ExtensionKeepsForce(f: Frame, s: State, s': State)
    requires FrameInForce(f, s) && Extends(s, s')
    ensures FrameInForce(f, s')
  {
    if Paying(f) && f.phase.indices.Some? {
      var i, j := f.phase.indices.value.0, f.phase.indices.value.1;
      assert s'.leaves[..|s.leaves|][i] == s'.leaves[i] && s'.leaves[..|s.leaves|][j] == s'.leaves[j];
    }
  }

  // ---------- Segments

  lemma CommitIsSafe(cfg: Config, s: State, p: Proof, ext: ExtData, insertOutputs: bool)
    requires Safe(s) && ProofInField(p) && Commit(cfg, s, p, ext, insertOutputs).Ok?
    ensures var c := Commit(cfg, s, p, ext, insertOutputs).value;
            && Safe(c.state) && Extends(s, c.state)
            && InForce(p, c.indices, c.state) && (c.indices.Some? <==> insertOutputs)
  {
    NullifierLogOfSpend(s.events, p.inputNullifiers);
    NoRepeatsConcat(NullifierLog(s.events), p.inputNullifiers);
    ElementsOfConcat(NullifierLog(s.events), p.inputNullifiers);
    var spent := SpendNullifiers(s, p.inputNullifiers);
    if insertOutputs {
      PairIsUnused(spent, p);
    }
  }

  lemma AnnounceIsSafe(s: State, p: Proof, ext: ExtData, payout: Option<Payout>, indices: Option<(nat, nat)>)
    requires Safe(s) && Announce(s, p, ext, payout, indices).Ok?
    ensures Safe(Announce(s, p, ext, payout, indices).value)
  {
    NullifierLogIgnoresOthers(s.events, Announcement(p, ext, payout, indices));
  }

  /** The end of a segment: safe, nothing lost, and the frame's own claim holds. */
  ghost predicate GoodProgress(s: State, f: Frame, r: Progress) {
    match r
    case Failed => true
    case Waiting(s', phase) =>
      Safe(s') && Extends(s, s') && FrameChecked(f.(phase := phase)) && FrameInForce(f.(phase := phase), s')
    case Done(s') => Safe(s') && Extends(s, s') && Settled(f, s')
  }

  lemma CloseIsGood(s: State, f: Frame, payout: Option<Payout>, indices: Option<(nat, nat)>)
    requires Safe(s) && InForce(f.call.proof, indices, s) && (indices.Some? <==> f.insertOutputs)
    ensures GoodProgress(s, f, Close(s, f, payout, indices))
  {
    if Close(s, f, payout, indices).Done? {
      AnnounceIsSafe(s, f.call.proof, f.call.ext, payout, indices);
    }
  }

  lemma ToFeeIsGood(s: State, f: Frame, payout: Option<Payout>, indices: Option<(nat, nat)>)
    requires Safe(s) && ProofInField(f.call.proof)
    requires InForce(f.call.proof, indices, s) && (indices.Some? <==> f.insertOutputs)
    ensures GoodProgress(s, f, ToFee(s, f, payout, indices))
  {
    CloseIsGood(s, f, payout, indices);
  }

  lemma VerdictIsGood(cfg: Config, s: State, f: Frame, verdict: Result<bool, Groth16Error>)
    requires Safe(s) && ProofInField(f.call.proof)
    ensures GoodProgress(s, f, GotVerdict(cfg, s, f, verdict))
  {
    if verdict == Ok(true) && Commit(cfg, s, f.call.proof, f.call.ext, f.insertOutputs).Ok? {
      CommitIsSafe(cfg, s, f.call.proof, f.call.ext, f.insertOutputs);
      var c := Commit(cfg, s, f.call.proof, f.call.ext, f.insertOutputs).value;
      ToFeeIsGood(c.state, f, c.payout, c.indices);
      ProgressAcross(s, c.state, f, ToFee(c.state, f, c.payout, c.indices));
    }
  }

  lemma ProgressAcross(s: State, middle: State, f: Frame, r: Progress)
    requires Extends(s, middle) && GoodProgress(middle, f, r)
    ensures GoodProgress(s, f, r)
  {
    if r.Waiting? || r.Done? {
      assert r.state.leaves[..|middle.leaves|][..|s.leaves|] == r.state.leaves[..|s.leaves|];
    }
  }

  lemma SafeUnderAnyLedger(s: State, balances: map<Address, nat>)
    requires Safe(s)
    ensures Safe(s.(balances := balances)) && Extends(s, s.(balances := balances))
  {
  }

  lemma ResumeIsGood(host: Host, cfg: Config, s: State, f: Frame, move: Move)
    requires Safe(s) && FrameChecked(f) && FrameInForce(f, s)
    ensures GoodProgress(s, f, Resume(host, cfg, s, f, move))
  {
    match move
    case TokenReturns(balances) =>
      var s' := s.(balances := balances);
      SafeUnderAnyLedger(s, balances);
      if f.phase.PayingRecipient? {
        ToFeeIsGood(s', f, Some(f.phase.payout), f.phase.indices);
        ProgressAcross(s, s', f, ToFee(s', f, Some(f.phase.payout), f.phase.indices));
      } else if f.phase.PayingFee? {
        CloseIsGood(s', f, Some(f.phase.payout), f.phase.indices);
        ProgressAcross(s, s', f, Close(s', f, Some(f.phase.payout), f.phase.indices));
      }
    case RootIs(_) =>
    case VerdictIs(verdict) =>
      if f.phase.Verifying? {
        VerdictIsGood(cfg, s, f, verdict);
      }
    case CalleeTraps =>
    case LedgerMoves(_) =>
    case Enter(_, _) =>
  }

  /** While it pays out, a call writes nothing but its closing events. */
  lemma NoWritesAfterPayout(host: Host, cfg: Config, s: State, f: Frame, move: Move)
    requires Paying(f)
    ensures var r := Resume(host, cfg, s, f, move);
            r.Failed? || (r.state.leaves == s.leaves && r.state.nullifiers == s.nullifiers && r.state.commitments == s.commitments)
  {
  }

  // ---------- Every interleaving

  /**
   The storage, and every snapshot a failure could return to, is safe; and each
   suspended call that is paying out is in force in all states above it.
   */
  ghost predicate MachineSafe(m: Machine) {
    && Safe(m.state)
    && (forall k :: 0 <= k < |m.stack| ==>
          Safe(m.stack[k].saved) && FrameChecked(m.stack[k]) && FrameInForce(m.stack[k], m.state))
    && (forall j, k :: 0 <= j < k < |m.stack| ==> FrameInForce(m.stack[j], m.stack[k].saved))
  }

  lemma EnterIsSafe(host: Host, cfg: Config, m: Machine, call: Call, insertOutputs: bool)
    requires MachineSafe(m)
    ensures MachineSafe(Apply(host, cfg, m, Enter(call, insertOutputs)))
  {
    var r := Begin(host, cfg, m.state, call, insertOutputs);
    if r.Waiting? {
      var frame := Frame(call, insertOutputs, r.phase, m.state);
      var m' := Machine(r.state, m.stack + [frame]);
      assert r.state == m.state && FrameChecked(frame) && FrameInForce(frame, m.state);
      forall j, k | 0 <= j < k < |m'.stack|
        ensures FrameInForce(m'.stack[j], m'.stack[k].saved)
      {
        if k == |m.stack| {
          assert FrameInForce(m.stack[j], m.state);
        }
      }
    }
  }

  lemma ProceedIsSafe(m: Machine, r: Progress)
    requires MachineSafe(m) && m.stack != [] && GoodProgress(m.state, m.stack[|m.stack| - 1], r)
    ensures MachineSafe(Proceed(m, r))
  {
    var n := |m.stack| - 1;
    var m' := Proceed(m, r);
    forall j | 0 <= j < n
      ensures FrameInForce(m.stack[j], m'.state)
    {
      if !r.Failed? {
        ExtensionKeepsForce(m.stack[j], m.state, r.state);
      }
    }
    assert forall j :: 0 <= j < n ==> m'.stack[j] == m.stack[j];
  }

  lemma LedgerIsSafe(m: Machine, balances: map<Address, nat>)
    requires MachineSafe(m)
    ensures MachineSafe(m.(state := m.state.(balances := balances)))
  {
    var s' := m.state.(balances := balances);
    SafeUnderAnyLedger(m.state, balances);
    forall k | 0 <= k < |m.stack|
      ensures FrameInForce(m.stack[k], s')
    {
      ExtensionKeepsForce(m.stack[k], m.state, s');
    }
  }

  /** However pool calls nest inside one another's external calls, the storage stays safe. */
  lemma {:induction false} InterleavingsAreSafe(host: Host, cfg: Config, start: State, moves: seq<Move>)
    requires Fresh(start)
    ensures MachineSafe(AfterMoves(host, cfg, Machine(start, []), moves))
  {
    if moves != [] {
      var n := |moves| - 1;
      InterleavingsAreSafe(host, cfg, start, moves[..n]);
      var m := AfterMoves(host, cfg, Machine(start, []), moves[..n]);
      match moves[n]
      case Enter(call, insertOutputs) => EnterIsSafe(host, cfg, m, call, insertOutputs);
      case LedgerMoves(balances) => LedgerIsSafe(m, balances);
      case _ =>
        if m.stack != [] {
          ResumeIsGood(host, cfg, m.state, m.stack[|m.stack| - 1], moves[n]);
          ProceedIsSafe(m, Resume(host, cfg, m.state, m.stack[|m.stack| - 1], moves[n]));
        }
    }
  }

  /** The depth of the tree is fixed. */
  lemma {:induction false} LevelsNeverChange(host: Host, cfg: Config, start: State, moves: seq<Move>)
    ensures var m := AfterMoves(host, cfg, Machine(start, []), moves);
            m.state.levels == start.levels && forall k :: 0 <= k < |m.stack| ==> m.stack[k].saved.levels == start.levels
  {
    hide CheckStatement, Resume;
    if moves != [] {
      var n := |moves| - 1;
      LevelsNeverChange(host, cfg, start, moves[..n]);
      var m := AfterMoves(host, cfg, Machine(start, []), moves[..n]);
      if m.stack != [] {
        ResumeKeepsLevels(host, cfg, m.state, m.stack[|m.stack| - 1], moves[n]);
      }
    }
  }

  lemma ResumeKeepsLevels(host: Host, cfg: Config, s: State, f: Frame, move: Move)
    ensures var r := Resume(host, cfg, s, f, move); r.Failed? || r.state.levels == s.levels
  {
    hide CheckStatement, Announcement;
  }

  /** A call that completes inside any interleaving has spent its notes and inserted its outputs. */
  lemma CompletedCallIsSettled(host: Host, cfg: Config, m: Machine, move: Move)
    requires MachineSafe(m) && !move.Enter? && !move.LedgerMoves? && m.stack != []
    requires var top := m.stack[|m.stack| - 1]; Resume(host, cfg, m.state, top, move).Done?
    ensures var m' := Apply(host, cfg, m, move);
            m'.stack == m.stack[..|m.stack| - 1] && Settled(m.stack[|m.stack| - 1], m'.state)
  {
    ResumeIsGood(host, cfg, m.state, m.stack[|m.stack| - 1], move);
  }

  /** What a commit writes, and the indices it will announce. */
  lemma CommitWrites(cfg: Config, s: State, p: Proof, ext: ExtData, insertOutputs: bool)
    requires Commit(cfg, s, p, ext, insertOutputs).Ok?
    ensures var c := Commit(cfg, s, p, ext, insertOutputs).value;
            && c.state.nullifiers == s.nullifiers + Elements(p.inputNullifiers)
            && c.state.leaves == s.leaves + (if insertOutputs then [p.outputCommitment0, p.outputCommitment1] else [])
            && c.indices == if insertOutputs then Some((|s.leaves|, |s.leaves| + 1)) else None
  {
  }

  // ---------- Undisturbed, the machine is the entrypoint

  /** The answer an honest token, the allowlist and the verifier give the top frame. */
  function HonestAnswer(cfg: Config, m: Machine): Move
    requires m.stack != []
  {
    var f := m.stack[|m.stack| - 1];
    match f.phase
    case AskingRoot => RootIs(f.call.answers.aspRoot)
    case Verifying => VerdictIs(f.call.answers.verify(f.call.proof.proof, PublicInputs(f.call.proof)))
    case Depositing => Ledger(m.state, f.call.sender, cfg.self, f.call.ext.extAmount)
    case PayingRecipient(payout, _) => Ledger(m.state, cfg.self, f.call.ext.recipient, payout.recipientAmount)
    case PayingFee(payout, _) => Ledger(m.state, cfg.self, cfg.feeRecipient, payout.fee)
  }

  function Ledger(s: State, from: Address, to: Address, amount: int): Move {
    if amount < 0 then CalleeTraps
    else match Transfer(s.balances, from, to, amount)
      case None => CalleeTraps
      case Some(balances) => TokenReturns(balances)
  }

  /** Answers the top frame honestly up to `n` times. */
  ghost function RunAlone(host: Host, cfg: Config, m: Machine, n: nat): Machine
    decreases n
  {
    if n == 0 || m.stack == [] then m
    else RunAlone(host, cfg, Apply(host, cfg, m, HonestAnswer(cfg, m)), n - 1)
  }

  /** The state an entrypoint leaves behind: a failed call leaves what it found. */
  ghost function Outcome(s: State, r: Result<State, ContractError>): State {
    match r
    case Ok(s') => s'
    case Err(_) => s
  }

  /** The lone frame `f`, having got as far as `r`, ends with `r'`. */
  ghost predicate EndsWith(host: Host, cfg: Config, f: Frame, r: Progress, n: nat, result: Result<State, ContractError>) {
    RunAlone(host, cfg, Proceed(Machine(f.saved, [f]), r), n) == Machine(Outcome(f.saved, result), [])
  }

  /** One honest answer to a lone frame. */
  lemma {:induction false} AnswerOnce(host: Host, cfg: Config, s: State, f: Frame, phase: Phase, n: nat)
    requires n > 0
    ensures var g := f.(phase := phase);
            RunAlone(host, cfg, Proceed(Machine(f.saved, [f]), Waiting(s, phase)), n)
            == RunAlone(host, cfg, Proceed(Machine(f.saved, [f]), Resume(host, cfg, s, g, HonestAnswer(cfg, Machine(s, [g])))), n - 1)
  {
    var g := f.(phase := phase);
    var m := Machine(s, [g]);
    assert Proceed(Machine(f.saved, [f]), Waiting(s, phase)) == m;
    var r := Resume(host, cfg, s, g, HonestAnswer(cfg, m));
    assert Apply(host, cfg, m, HonestAnswer(cfg, m)) == Proceed(m, r);
    assert Proceed(m, r) == Proceed(Machine(f.saved, [f]), r);
  }

  /** A frame that has returned or failed leaves nothing to answer. */
  lemma {:induction false} AloneAtEnd(host: Host, cfg: Config, f: Frame, r: Progress)
    requires !r.Waiting?
    ensures var s := if r.Done? then r.state else f.saved;
            forall n: nat :: RunAlone(host, cfg, Proceed(Machine(f.saved, [f]), r), n) == Machine(s, [])
  {
  }

  lemma {:induction false} AloneFromFee(host: Host, cfg: Config, s: State, f: Frame, n: nat, payout: Option<Payout>, indices: Option<(nat, nat)>)
    requires n >= 1
    ensures EndsWith(host, cfg, f, ToFee(s, f, payout, indices), n,
                     match PayFee(cfg, s, payout) case Err(e) => Err(e) case Ok(s') => Announce(s', f.call.proof, f.call.ext, payout, indices))
  {
    hide RunAlone, Announce;
    if payout.Some? && payout.value.fee > 0 {
      AnswerOnce(host, cfg, s, f, PayingFee(payout.value, indices), n);
      var paid := PayFee(cfg, s, payout);
      AloneAtEnd(host, cfg, f, if paid.Ok? then Close(paid.value, f, payout, indices) else Failed);
    } else {
      AloneAtEnd(host, cfg, f, Close(s, f, payout, indices));
    }
  }

  lemma {:induction false} AloneFromRecipient(host: Host, cfg: Config, c: Committed, f: Frame, n: nat)
    requires n >= 2
    ensures EndsWith(host, cfg, f, ToRecipient(c.state, f, c.payout, c.indices), n, Finish(cfg, c, f.call.proof, f.call.ext))
  {
    hide RunAlone, Announce;
    if c.payout.Some? && c.payout.value.recipientAmount > 0 {
      AnswerOnce(host, cfg, c.state, f, PayingRecipient(c.payout.value, c.indices), n);
      var paid := PayRecipient(cfg, c.state, f.call.ext, c.payout);
      if paid.Ok? {
        AloneFromFee(host, cfg, paid.value, f, n - 1, c.payout, c.indices);
        var g := f.(phase := PayingRecipient(c.payout.value, c.indices));
        assert ToFee(paid.value, g, c.payout, c.indices) == ToFee(paid.value, f, c.payout, c.indices);
      } else {
        AloneAtEnd(host, cfg, f, Failed);
      }
    } else {
      AloneFromFee(host, cfg, c.state, f, n, c.payout, c.indices);
    }
  }

  /** `settle` from the commit on. */
  function CommitAndFinish(cfg: Config, s: State, call: Call, insertOutputs: bool): Result<State, ContractError> {
    match Commit(cfg, s, call.proof, call.ext, insertOutputs)
    case Err(e) => Err(e)
    case Ok(c) => Finish(cfg, c, call.proof, call.ext)
  }

  lemma {:induction false} AloneFromVerdict(host: Host, cfg: Config, s: State, f: Frame, phase: Phase, n: nat)
    requires n >= 2
    ensures EndsWith(host, cfg, f, GotVerdict(cfg, s, f.(phase := phase), Ok(true)), n, CommitAndFinish(cfg, s, f.call, f.insertOutputs))
  {
    hide RunAlone, Commit, Finish;
    var committed := Commit(cfg, s, f.call.proof, f.call.ext, f.insertOutputs);
    if committed.Ok? {
      var c := committed.value;
      AloneFromRecipient(host, cfg, c, f, n);
      assert ToRecipient(c.state, f.(phase := phase), c.payout, c.indices) == ToRecipient(c.state, f, c.payout, c.indices);
    } else {
      AloneAtEnd(host, cfg, f, Failed);
    }
  }

  lemma {:induction false} AloneFromVerifying(host: Host, cfg: Config, s: State, f: Frame, n: nat)
    requires n >= 3 && !f.call.proof.proof.IsEmpty()
    ensures EndsWith(host, cfg, f, Waiting(s, Verifying), n,
                     match CheckProof(f.call.proof, f.call.answers.verify)
                     case Err(e) => Err(e)
                     case Ok(_) => CommitAndFinish(cfg, s, f.call, f.insertOutputs))
  {
    hide RunAlone, CommitAndFinish;
    AnswerOnce(host, cfg, s, f, Verifying, n);
    AloneFromVerdict(host, cfg, s, f, Verifying, n - 1);
    AloneAtEnd(host, cfg, f, Failed);
  }

  lemma {:induction false} AloneFromChecks(host: Host, cfg: Config, s: State, f: Frame, n: nat)
    requires n >= 4
    ensures EndsWith(host, cfg, f, CheckThenAsk(host, s, f.call), n, Settle(host, cfg, s, f.call, f.insertOutputs))
  {
    hide RunAlone, Commit, Finish, CheckStatement;
    AloneAtEnd(host, cfg, f, Failed);
    if CheckStatement(host, s, f.call.proof, f.call.ext).Ok? {
      AnswerOnce(host, cfg, s, f, AskingRoot, n);
      if !f.call.proof.proof.IsEmpty() {
        AloneFromVerifying(host, cfg, s, f, n - 1);
      }
    }
  }

  /** With nothing in between, the cut-up call is `transact` or `exit` exactly. */
  lemma {:induction false} UndisturbedCallIsTheEntrypoint(host: Host, cfg: Config, s: State, call: Call, insertOutputs: bool)
    ensures RunAlone(host, cfg, Apply(host, cfg, Machine(s, []), Enter(call, insertOutputs)), 5)
            == Machine(Outcome(s, if insertOutputs then Transact(host, cfg, s, call) else ExitPool(host, cfg, s, call)), [])
  {
    hide RunAlone, Commit, Finish, CheckProof, CheckAllowlist, CheckStatement;
    var r := Begin(host, cfg, s, call, insertOutputs);
    var begun := Frame(call, insertOutputs, Depositing, s);
    AloneAtEnd(host, cfg, begun, Failed);
    assert Proceed(Machine(s, [begun]), Failed) == Machine(s, []);
    if r.Waiting? {
      var f := Frame(call, insertOutputs, r.phase, s);
      AloneAtEnd(host, cfg, f, Failed);
      assert Apply(host, cfg, Machine(s, []), Enter(call, insertOutputs)) == Proceed(Machine(s, [f]), r);
      if r.phase.Depositing? {
        AnswerOnce(host, cfg, s, f, Depositing, 5);
        var paid := TakeDeposit(cfg, s, call);
        if paid.Ok? {
          AloneFromChecks(host, cfg, paid.value, f, 4);
        }
      } else {
        AloneFromChecks(host, cfg, s, f, 5);
      }
    }
  }
}
