/**
 Solvency under nesting. The token may call back at any moment, but it is honest
 to the pool: a transfer to the pool credits the amount, a transfer from it
 takes no more than the amount, and nothing else takes from it. Then in every
 interleaving the pool holds the value of all unspent notes, every deposit not
 yet turned into notes and every payout still owed, so no payout can fail.
 */
module NestedSolvency {
  import opened Wrappers
  import opened RootHistory
  import opened PoolTypes
  import opened Amounts
  import opened VerifierBoundary
  import opened Settlement
  import opened PoolRuns
  import opened PoolMoney
  import opened Circuit
  import opened Solvency
  import opened Interleaving

  /** The books, as they were when each suspended call began, and which pending transfers are already made. */
  datatype Account = Account(books: Books, saved: seq<Books>, paid: seq<bool>)

  /** The witness of a call that commits, or that a ledger change is the pending transfer. */
  datatype Hint = Hint(w: Witness, pays: bool)

  predicate AwaitsToken(f: Frame) {
    f.phase.Depositing? || Paying(f)
  }

  /** What the transfer a call is waiting for adds to the pool. */
  function Pending(f: Frame): int {
    match f.phase
    case Depositing => f.call.ext.extAmount
    case PayingRecipient(payout, _) => 0 - payout.recipientAmount
    case PayingFee(payout, _) => 0 - payout.fee
    case AskingRoot => 0
    case Verifying => 0
  }

  function Deposit(f: Frame): nat {
    if f.call.ext.extAmount > 0 then f.call.ext.extAmount else 0
  }

  /** What the pool holds for a suspended call: its deposit, or what it is still to pay. */
  function Reserve(f: Frame, paid: bool): nat {
    match f.phase
    case Depositing => if paid then Deposit(f) else 0
    case AskingRoot => Deposit(f)
    case Verifying => Deposit(f)
    case PayingRecipient(payout, _) => payout.fee + if paid then 0 else payout.recipientAmount
    case PayingFee(payout, _) => if paid then 0 else payout.fee
  }

  function Owed(stack: seq<Frame>, paid: seq<bool>): nat
    requires |stack| == |paid|
  {
    if stack == [] then 0
    else
      var n := |stack| - 1;
      Owed(stack[..n], paid[..n]) + Reserve(stack[n], paid[n])
  }

  lemma {:induction false} OwedSnoc(stack: seq<Frame>, paid: seq<bool>, f: Frame, p: bool)
    requires |stack| == |paid|
    ensures Owed(stack + [f], paid + [p]) == Owed(stack, paid) + Reserve(f, p)
  {
    assert (stack + [f])[..|stack|] == stack && (paid + [p])[..|paid|] == paid;
  }

  // ---------- Honest tokens and sound verdicts

  function Held(cfg: Config, balances: map<Address, nat>): nat {
    BalanceOf(balances, cfg.self)
  }

  /** The token is honest to the pool in this move. */
  predicate HonestMove(cfg: Config, m: Machine, a: Account, move: Move, hint: Hint)
    requires |a.paid| == |m.stack|
  {
    var n := |m.stack| - 1;
    match move
    case LedgerMoves(balances) =>
      if hint.pays then
        && m.stack != [] && AwaitsToken(m.stack[n]) && !a.paid[n]
        && Held(cfg, balances) >= Held(cfg, m.state.balances) + Pending(m.stack[n])
      else Held(cfg, balances) >= Held(cfg, m.state.balances)
    case TokenReturns(balances) =>
      m.stack != [] && AwaitsToken(m.stack[n]) ==>
        Held(cfg, balances) >= Held(cfg, m.state.balances) + if a.paid[n] then 0 else Pending(m.stack[n])
    case Enter(_, _) => true
    case RootIs(_) => true
    case VerdictIs(_) => true
    case CalleeTraps => true
  }

  /** The top call commits in this move. */
  predicate Commits(cfg: Config, m: Machine, move: Move) {
    && move == VerdictIs(Ok(true)) && m.stack != [] && m.stack[|m.stack| - 1].phase.Verifying?
    && var f := m.stack[|m.stack| - 1]; Commit(cfg, m.state, f.call.proof, f.call.ext, f.insertOutputs).Ok?
  }

  /** A call that commits has a witness, and everything hashed is in the log. */
  ghost predicate WitnessedMove(h: Hashes, q: Queries, host: Host, cfg: Config, m: Machine, move: Move, hint: Hint) {
    Commits(cfg, m, move) ==>
      && Relation(h, m.state.levels, PublicInputs(m.stack[|m.stack| - 1].call.proof), hint.w)
      && LogsWitness(q, h, hint.w) && LogsTrees(q, host.h, host.zero, m.state.levels, m.state.leaves)
  }

  // ---------- The account

  function BooksOfMove(cfg: Config, m: Machine, b: Books, move: Move, hint: Hint): Books {
    if Commits(cfg, m, move) then Solvency.Enter(b, hint.w, m.stack[|m.stack| - 1].insertOutputs) else b
  }

  function AccountProgress(m: Machine, a: Account, books: Books, r: Progress): (a': Account)
    requires |a.saved| == |a.paid| == |m.stack| > 0
    ensures |a'.saved| == |a'.paid| == |Proceed(m, r).stack|
  {
    var n := |m.stack| - 1;
    match r
    case Failed => Account(a.saved[n], a.saved[..n], a.paid[..n])
    case Done(_) => Account(books, a.saved[..n], a.paid[..n])
    case Waiting(_, _) => Account(books, a.saved, a.paid[..n] + [false])
  }

  ghost function AccountMove(host: Host, cfg: Config, m: Machine, a: Account, move: Move, hint: Hint): (a': Account)
    requires |a.saved| == |a.paid| == |m.stack|
    ensures |a'.saved| == |a'.paid| == |Apply(host, cfg, m, move).stack|
  {
    match move
    case Enter(call, insertOutputs) =>
      if Begin(host, cfg, m.state, call, insertOutputs).Waiting?
      then Account(a.books, a.saved + [a.books], a.paid + [false]) else a
    case LedgerMoves(_) => if hint.pays && m.stack != [] then a.(paid := a.paid[..|m.stack| - 1] + [true]) else a
    case _ =>
      if m.stack == [] then a
      else AccountProgress(m, a, BooksOfMove(cfg, m, a.books, move, hint),
                           Resume(host, cfg, m.state, m.stack[|m.stack| - 1], move))
  }

  ghost function AccountMoves(host: Host, cfg: Config, start: State, moves: seq<Move>, hints: seq<Hint>): (a: Account)
    requires |hints| == |moves|
    ensures |a.saved| == |a.paid| == |AfterMoves(host, cfg, Machine(start, []), moves).stack|
  {
    if moves == [] then Account(Books([], [], map[], 0), [], [])
    else
      var n := |moves| - 1;
      AccountMove(host, cfg, AfterMoves(host, cfg, Machine(start, []), moves[..n]),
                  AccountMoves(host, cfg, start, moves[..n], hints[..n]), moves[n], hints[n])
  }

  /** An interleaving with an honest token in which every committed call has a witness. */
  ghost predicate SoundMoves(h: Hashes, q: Queries, host: Host, cfg: Config, start: State, moves: seq<Move>, hints: seq<Hint>)
    requires |hints| == |moves|
  {
    moves != [] ==>
      var n := |moves| - 1;
      var m := AfterMoves(host, cfg, Machine(start, []), moves[..n]);
      && SoundMoves(h, q, host, cfg, start, moves[..n], hints[..n])
      && HonestMove(cfg, m, AccountMoves(host, cfg, start, moves[..n], hints[..n]), moves[n], hints[n])
      && WitnessedMove(h, q, host, cfg, m, moves[n], hints[n])
  }

  // ---------- The invariant

  /** What a suspended call has been checked for; its root may have left the window since. */
  ghost predicate Stated(host: Host, s: State, f: Frame) {
    && (f.phase.Depositing? ==> f.call.ext.extAmount > 0)
    && (f.phase.AskingRoot? || f.phase.Verifying? ==>
          && PastRoot(host.h, host.zero, s.levels, s.leaves, f.call.proof.root)
          && PublicAmount(f.call.ext.extAmount) == Ok(f.call.proof.publicAmount))
  }

  ghost predicate Covered(cfg: Config, s: State, b: Books, reserved: nat) {
    PoolBalance(cfg, s) >= Outstanding(b.notes, b.spends) + reserved
  }

  ghost predicate Solvent(h: Hashes, q: Queries, host: Host, cfg: Config, s: State, b: Books, stack: seq<Frame>, paid: seq<bool>)
    requires |stack| == |paid|
  {
    && InOrder(h, q, s, b) && Covered(cfg, s, b, Owed(stack, paid))
    && forall k :: 0 <= k < |stack| ==> Stated(host, s, stack[k])
  }

  ghost predicate MachineSolvent(h: Hashes, q: Queries, host: Host, cfg: Config, m: Machine, a: Account)
    requires |a.saved| == |a.paid| == |m.stack|
  {
    && Solvent(h, q, host, cfg, m.state, a.books, m.stack, a.paid)
    && forall k :: 0 <= k < |m.stack| ==> Solvent(h, q, host, cfg, m.stack[k].saved, a.saved[k], m.stack[..k], a.paid[..k])
  }

  /** Storage only grows, as far as the books and the checks look at it. */
  predicate Grows(s: State, s': State) {
    s'.levels == s.levels && |s.leaves| <= |s'.leaves| && s'.leaves[..|s.leaves|] == s.leaves
  }

  lemma StatedStays(host: Host, s: State, s': State, f: Frame)
    requires Stated(host, s, f) && Grows(s, s')
    ensures Stated(host, s', f)
  {
    if f.phase.AskingRoot? || f.phase.Verifying? {
      PastRootStays(host.h, host.zero, s.levels, s.leaves, s'.leaves, f.call.proof.root);
    }
  }

  lemma BooksUnder(h: Hashes, q: Queries, s: State, s': State, b: Books)
    requires InOrder(h, q, s, b) && s'.leaves == s.leaves && s'.nullifiers == s.nullifiers
    ensures InOrder(h, q, s', b)
  {
    forall i: nat | i < |s'.leaves|
      ensures NoteBehindLeaf(h, q, s', b, i)
    {
      assert NoteBehindLeaf(h, q, s, b, i);
    }
    forall i: nat | i in b.spends
      ensures SpendRecorded(h, q, s', b, i)
    {
      assert SpendRecorded(h, q, s, b, i);
    }
  }

  /** The frames below the top: what they need of the pool besides the top's own reserve. */
  ghost predicate SolventBelow(h: Hashes, q: Queries, host: Host, cfg: Config, s: State, b: Books, below: seq<Frame>, paid: seq<bool>, reserve: nat)
    requires |below| == |paid|
  {
    && InOrder(h, q, s, b) && Covered(cfg, s, b, Owed(below, paid) + reserve)
    && forall k :: 0 <= k < |below| ==> Stated(host, s, below[k])
  }

  lemma SplitTop(h: Hashes, q: Queries, host: Host, cfg: Config, s: State, b: Books, below: seq<Frame>, paid: seq<bool>, f: Frame, p: bool)
    requires |below| == |paid|
    ensures Solvent(h, q, host, cfg, s, b, below + [f], paid + [p])
            <==> SolventBelow(h, q, host, cfg, s, b, below, paid, Reserve(f, p)) && Stated(host, s, f)
  {
    hide InOrder, Covered, Stated, Reserve;
    OwedSnoc(below, paid, f, p);
    var all := below + [f];
    assert all[|below|] == f && forall k :: 0 <= k < |below| ==> all[k] == below[k];
  }

  /** Moving on: the pool's surplus over books and reserve does not shrink. */
  lemma MoveOn(h: Hashes, q: Queries, host: Host, cfg: Config, s: State, b: Books, s': State, b': Books,
               below: seq<Frame>, paid: seq<bool>, reserve: nat, reserve': nat)
    requires |below| == |paid| && SolventBelow(h, q, host, cfg, s, b, below, paid, reserve)
    requires InOrder(h, q, s', b') && Grows(s, s')
    requires PoolBalance(cfg, s') + Outstanding(b.notes, b.spends) + reserve >= PoolBalance(cfg, s) + Outstanding(b'.notes, b'.spends) + reserve'
    ensures SolventBelow(h, q, host, cfg, s', b', below, paid, reserve')
  {
    hide InOrder, Outstanding, Stated, Grows;
    forall k | 0 <= k < |below|
      ensures Stated(host, s', below[k])
    {
      StatedStays(host, s, s', below[k]);
    }
  }

  // ---------- Segments

  /** A resumed call leaves the pool solvent, with or without itself on the stack. */
  ghost predicate SolventProgress(h: Hashes, q: Queries, host: Host, cfg: Config, b: Books, below: seq<Frame>, paid: seq<bool>, f: Frame, r: Progress)
    requires |below| == |paid|
  {
    match r
    case Failed => true
    case Waiting(s, phase) =>
      var f' := f.(phase := phase);
      SolventBelow(h, q, host, cfg, s, b, below, paid, Reserve(f', false)) && Stated(host, s, f')
    case Done(s) => SolventBelow(h, q, host, cfg, s, b, below, paid, 0)
  }

  /** The payouts still to come are reserved; closing owes nothing more. */
  lemma PayingIsSolvent(h: Hashes, q: Queries, host: Host, cfg: Config, s: State, b: Books, below: seq<Frame>, paid: seq<bool>,
                        f: Frame, payout: Option<Payout>, indices: Option<(nat, nat)>)
    requires |below| == |paid|
    ensures SolventBelow(h, q, host, cfg, s, b, below, paid, 0) ==>
              SolventProgress(h, q, host, cfg, b, below, paid, f, Close(s, f, payout, indices))
    ensures SolventBelow(h, q, host, cfg, s, b, below, paid, if payout.Some? then payout.value.fee else 0) ==>
              SolventProgress(h, q, host, cfg, b, below, paid, f, ToFee(s, f, payout, indices))
    ensures SolventBelow(h, q, host, cfg, s, b, below, paid, if payout.Some? then payout.value.recipientAmount + payout.value.fee else 0) ==>
              SolventProgress(h, q, host, cfg, b, below, paid, f, ToRecipient(s, f, payout, indices))
  {
    hide InOrder, Outstanding, Announcement;
    if SolventBelow(h, q, host, cfg, s, b, below, paid, 0) && Close(s, f, payout, indices).Done? {
      var s' := Close(s, f, payout, indices).state;
      BooksUnder(h, q, s, s', b);
      assert s'.leaves[..|s.leaves|] == s.leaves;
      MoveOn(h, q, host, cfg, s, b, s', b, below, paid, 0, 0);
    }
  }

  /** A commit turns the deposit into notes, or notes into a payout owed. */
  lemma CommitIsSolvent(h: Hashes, q: Queries, host: Host, cfg: Config, s: State, b: Books, below: seq<Frame>, paid: seq<bool>, f: Frame, w: Witness)
    requires SameHashes(h, host) && CollisionFree(h, q) && cfg.feeBps <= MAX_FEE_BPS
    requires |below| == |paid| && SolventBelow(h, q, host, cfg, s, b, below, paid, Deposit(f))
    requires f.phase.Verifying? && Stated(host, s, f) && Commit(cfg, s, f.call.proof, f.call.ext, f.insertOutputs).Ok?
    requires Relation(h, s.levels, PublicInputs(f.call.proof), w)
    requires LogsWitness(q, h, w) && LogsTrees(q, host.h, host.zero, s.levels, s.leaves)
    ensures var c := Commit(cfg, s, f.call.proof, f.call.ext, f.insertOutputs).value;
            SolventBelow(h, q, host, cfg, c.state, Solvency.Enter(b, w, f.insertOutputs), below, paid,
                         if c.payout.Some? then c.payout.value.recipientAmount + c.payout.value.fee else 0)
  {
    hide CollisionFree, Relation, InOrder, Outstanding, LogsWitness, LogsTrees, Stated, Owed;
    var c := Commit(cfg, s, f.call.proof, f.call.ext, f.insertOutputs).value;
    CommitJustified(h, q, host, cfg, s, f, w);
    CommitWrites(cfg, s, f.call.proof, f.call.ext, f.insertOutputs);
    PayoutSplitsTheAmount(cfg, f.call.ext);
    BooksStayInOrder(h, q, host, s, c.state, b, f.call, w, f.insertOutputs);
    ValueFollowsTheCall(h, q, host, s, b, f.call, w, f.insertOutputs);
    assert c.state.leaves[..|s.leaves|] == s.leaves;
    MoveOn(h, q, host, cfg, s, b, c.state, Solvency.Enter(b, w, f.insertOutputs), below, paid, Deposit(f),
           if c.payout.Some? then c.payout.value.recipientAmount + c.payout.value.fee else 0);
  }

  lemma CommitJustified(h: Hashes, q: Queries, host: Host, cfg: Config, s: State, f: Frame, w: Witness)
    requires f.phase.Verifying? && Stated(host, s, f) && Commit(cfg, s, f.call.proof, f.call.ext, f.insertOutputs).Ok?
    requires Relation(h, s.levels, PublicInputs(f.call.proof), w)
    requires LogsWitness(q, h, w) && LogsTrees(q, host.h, host.zero, s.levels, s.leaves)
    ensures Justified(h, q, host, s, f.call, w)
    ensures PlanPayout(cfg, f.call.ext) == Ok(Commit(cfg, s, f.call.proof, f.call.ext, f.insertOutputs).value.payout)
    ensures Commit(cfg, s, f.call.proof, f.call.ext, f.insertOutputs).value.state.balances == s.balances
    ensures Commit(cfg, s, f.call.proof, f.call.ext, f.insertOutputs).value.state.levels == s.levels
  {
    hide Relation, LogsWitness, LogsTrees;
  }

  lemma VerdictIsSolvent(h: Hashes, q: Queries, host: Host, cfg: Config, m: Machine, b: Books, below: seq<Frame>, paid: seq<bool>,
                         f: Frame, verdict: Result<bool, Groth16Error>, hint: Hint)
    requires SameHashes(h, host) && CollisionFree(h, q) && cfg.feeBps <= MAX_FEE_BPS
    requires |below| == |paid| && m.stack == below + [f] && f.phase.Verifying?
    requires SolventBelow(h, q, host, cfg, m.state, b, below, paid, Deposit(f)) && Stated(host, m.state, f)
    requires WitnessedMove(h, q, host, cfg, m, VerdictIs(verdict), hint)
    ensures SolventProgress(h, q, host, cfg, BooksOfMove(cfg, m, b, VerdictIs(verdict), hint), below, paid, f,
                            GotVerdict(cfg, m.state, f, verdict))
  {
    hide SolventBelow, CollisionFree, Stated, Commit, ToRecipient, SolventProgress, Relation, LogsWitness, LogsTrees;
    var s := m.state;
    if verdict == Ok(true) && Commit(cfg, s, f.call.proof, f.call.ext, f.insertOutputs).Ok? {
      var c := Commit(cfg, s, f.call.proof, f.call.ext, f.insertOutputs).value;
      assert Commits(cfg, m, VerdictIs(verdict));
      CommitIsSolvent(h, q, host, cfg, s, b, below, paid, f, hint.w);
      PayingIsSolvent(h, q, host, cfg, c.state, Solvency.Enter(b, hint.w, f.insertOutputs), below, paid, f, c.payout, c.indices);
    } else {
      FailureIsSolvent(h, q, host, cfg, b, below, paid, f);
    }
  }

  lemma FailureIsSolvent(h: Hashes, q: Queries, host: Host, cfg: Config, b: Books, below: seq<Frame>, paid: seq<bool>, f: Frame)
    requires |below| == |paid|
    ensures SolventProgress(h, q, host, cfg, b, below, paid, f, Failed)
  {
  }

  /** The reserve after a token has answered, with the pending transfer made. */
  function ReserveAfter(f: Frame): nat {
    match f.phase
    case PayingRecipient(payout, _) => payout.fee
    case PayingFee(_, _) => 0
    case _ => Deposit(f)
  }

  /** An honest token's answer to the call that waits for it. */
  lemma AnswerIsSolvent(h: Hashes, q: Queries, host: Host, cfg: Config, s: State, b: Books, below: seq<Frame>, paid: seq<bool>,
                        f: Frame, p: bool, balances: map<Address, nat>)
    requires |below| == |paid| && SolventBelow(h, q, host, cfg, s, b, below, paid, Reserve(f, p)) && Stated(host, s, f) && AwaitsToken(f)
    requires Held(cfg, balances) >= Held(cfg, s.balances) + if p then 0 else Pending(f)
    ensures SolventProgress(h, q, host, cfg, b, below, paid, f, Resume(host, cfg, s, f, TokenReturns(balances)))
  {
    hide InOrder, Outstanding, Owed, CheckStatement;
    var s' := s.(balances := balances);
    BooksUnder(h, q, s, s', b);
    assert s'.leaves[..|s.leaves|] == s.leaves;
    MoveOn(h, q, host, cfg, s, b, s', b, below, paid, Reserve(f, p), ReserveAfter(f));
    if f.phase.Depositing? {
      DepositIsSolvent(h, q, host, cfg, s', b, below, paid, f);
    } else {
      PayingIsSolvent(h, q, host, cfg, s', b, below, paid, f, Some(f.phase.payout), f.phase.indices);
    }
  }

  lemma DepositIsSolvent(h: Hashes, q: Queries, host: Host, cfg: Config, s: State, b: Books, below: seq<Frame>, paid: seq<bool>, f: Frame)
    requires |below| == |paid| && SolventBelow(h, q, host, cfg, s, b, below, paid, Deposit(f))
    ensures SolventProgress(h, q, host, cfg, b, below, paid, f, CheckThenAsk(host, s, f.call))
  {
    hide SolventBelow;
    if CheckStatement(host, s, f.call.proof, f.call.ext).Ok? {
      RecentRootIsPast(host.h, host.zero, s.levels, s.leaves, f.call.proof.root);
    }
  }

  lemma ResumeIsSolvent(h: Hashes, q: Queries, host: Host, cfg: Config, m: Machine, a: Account, move: Move, hint: Hint)
    requires SameHashes(h, host) && CollisionFree(h, q) && cfg.feeBps <= MAX_FEE_BPS
    requires |a.saved| == |a.paid| == |m.stack| > 0 && !move.Enter? && !move.LedgerMoves?
    requires Solvent(h, q, host, cfg, m.state, a.books, m.stack, a.paid)
    requires HonestMove(cfg, m, a, move, hint) && WitnessedMove(h, q, host, cfg, m, move, hint)
    ensures var n := |m.stack| - 1;
            SolventProgress(h, q, host, cfg, BooksOfMove(cfg, m, a.books, move, hint), m.stack[..n], a.paid[..n], m.stack[n],
                            Resume(host, cfg, m.state, m.stack[n], move))
  {
    hide SolventBelow, Solvent, CollisionFree, Relation, LogsWitness, LogsTrees, CheckThenAsk, GotVerdict, ToFee, Close;
    var n := |m.stack| - 1;
    var f, below, paid := m.stack[n], m.stack[..n], a.paid[..n];
    assert m.stack == below + [f] && a.paid == paid + [a.paid[n]];
    SplitTop(h, q, host, cfg, m.state, a.books, below, paid, f, a.paid[n]);
    match move
    case TokenReturns(balances) =>
      if AwaitsToken(f) {
        AnswerIsSolvent(h, q, host, cfg, m.state, a.books, below, paid, f, a.paid[n], balances);
      }
    case RootIs(root) =>
    case VerdictIs(verdict) =>
      if f.phase.Verifying? {
        VerdictIsSolvent(h, q, host, cfg, m, a.books, below, paid, f, verdict, hint);
      }
    case CalleeTraps =>
  }

  // ---------- Moves

  lemma ProceedIsSolvent(h: Hashes, q: Queries, host: Host, cfg: Config, m: Machine, a: Account, books: Books, r: Progress)
    requires |a.saved| == |a.paid| == |m.stack| > 0 && MachineSolvent(h, q, host, cfg, m, a)
    requires var n := |m.stack| - 1;
             SolventProgress(h, q, host, cfg, books, m.stack[..n], a.paid[..n], m.stack[n], r)
    ensures MachineSolvent(h, q, host, cfg, Proceed(m, r), AccountProgress(m, a, books, r))
  {
    hide InOrder, Covered, Stated, Reserve, Owed;
    var n := |m.stack| - 1;
    var f, below, paid := m.stack[n], m.stack[..n], a.paid[..n];
    var m', a' := Proceed(m, r), AccountProgress(m, a, books, r);
    if r.Waiting? {
      SplitTop(h, q, host, cfg, r.state, books, below, paid, f.(phase := r.phase), false);
    }
    assert Solvent(h, q, host, cfg, f.saved, a.saved[n], below, paid);
    SnapshotsStay(h, q, host, cfg, m, a, m', a');
  }

  /** The snapshots of calls that stay on the stack are not touched. */
  lemma SnapshotsStay(h: Hashes, q: Queries, host: Host, cfg: Config, m: Machine, a: Account, m': Machine, a': Account)
    requires |a.saved| == |a.paid| == |m.stack| && MachineSolvent(h, q, host, cfg, m, a)
    requires |a'.saved| == |a'.paid| == |m'.stack| <= |m.stack|
    requires m'.stack != [] ==>
               var last := |m'.stack| - 1;
               && m'.stack[..last] == m.stack[..last] && m'.stack[last].saved == m.stack[last].saved
               && a'.paid[..last] == a.paid[..last]
    requires a'.saved == a.saved[..|a'.saved|]
    ensures forall k :: 0 <= k < |m'.stack| ==>
              Solvent(h, q, host, cfg, m'.stack[k].saved, a'.saved[k], m'.stack[..k], a'.paid[..k])
  {
    hide Solvent;
    forall k | 0 <= k < |m'.stack|
      ensures Solvent(h, q, host, cfg, m'.stack[k].saved, a'.saved[k], m'.stack[..k], a'.paid[..k])
    {
      var last := |m'.stack| - 1;
      assert m'.stack[..k] == m'.stack[..last][..k] == m.stack[..last][..k] == m.stack[..k];
      assert a'.paid[..k] == a'.paid[..last][..k] == a.paid[..last][..k] == a.paid[..k];
      assert k < last ==> m'.stack[k] == m'.stack[..last][k] == m.stack[..last][k] == m.stack[k];
      assert Solvent(h, q, host, cfg, m.stack[k].saved, a.saved[k], m.stack[..k], a.paid[..k]);
    }
  }

  lemma EnterIsSolvent(h: Hashes, q: Queries, host: Host, cfg: Config, m: Machine, a: Account, call: Call, insertOutputs: bool, hint: Hint)
    requires |a.saved| == |a.paid| == |m.stack| && MachineSolvent(h, q, host, cfg, m, a)
    ensures MachineSolvent(h, q, host, cfg, Apply(host, cfg, m, Move.Enter(call, insertOutputs)),
                           AccountMove(host, cfg, m, a, Move.Enter(call, insertOutputs), hint))
  {
    hide InOrder, Covered, Owed, CheckStatement;
    var r := Begin(host, cfg, m.state, call, insertOutputs);
    if r.Waiting? {
      var f := Frame(call, insertOutputs, r.phase, m.state);
      BeginIsStated(host, cfg, m.state, call, insertOutputs);
      assert Reserve(f, false) == 0;
      SplitTop(h, q, host, cfg, m.state, a.books, m.stack, a.paid, f, false);
      var stack, saved, paid := m.stack + [f], a.saved + [a.books], a.paid + [false];
      forall k | 0 <= k < |stack|
        ensures Solvent(h, q, host, cfg, stack[k].saved, saved[k], stack[..k], paid[..k])
      {
        assert stack[..k] == m.stack[..k] && paid[..k] == a.paid[..k];
        if k == |m.stack| {
          assert m.stack[..k] == m.stack && a.paid[..k] == a.paid;
        }
      }
    }
  }

  lemma BeginIsStated(host: Host, cfg: Config, s: State, call: Call, insertOutputs: bool)
    requires Begin(host, cfg, s, call, insertOutputs).Waiting?
    ensures var r := Begin(host, cfg, s, call, insertOutputs);
            && r.state == s && Stated(host, s, Frame(call, insertOutputs, r.phase, s))
            && (!r.phase.Depositing? ==> r.phase.AskingRoot? && call.ext.extAmount <= 0)
  {
    if CheckStatement(host, s, call.proof, call.ext).Ok? {
      RecentRootIsPast(host.h, host.zero, s.levels, s.leaves, call.proof.root);
    }
  }

  lemma LedgerIsSolvent(h: Hashes, q: Queries, host: Host, cfg: Config, m: Machine, a: Account, balances: map<Address, nat>, hint: Hint)
    requires |a.saved| == |a.paid| == |m.stack| && MachineSolvent(h, q, host, cfg, m, a)
    requires HonestMove(cfg, m, a, LedgerMoves(balances), hint)
    ensures MachineSolvent(h, q, host, cfg, Apply(host, cfg, m, LedgerMoves(balances)),
                           AccountMove(host, cfg, m, a, LedgerMoves(balances), hint))
  {
    hide InOrder, Outstanding, Owed;
    var s, s' := m.state, m.state.(balances := balances);
    var m', a' := Apply(host, cfg, m, LedgerMoves(balances)), AccountMove(host, cfg, m, a, LedgerMoves(balances), hint);
    BooksUnder(h, q, s, s', a.books);
    assert s'.leaves[..|s.leaves|] == s.leaves;
    if hint.pays {
      var n := |m.stack| - 1;
      var f, below, paid := m.stack[n], m.stack[..n], a.paid[..n];
      assert m.stack == below + [f] && a.paid == paid + [false];
      SplitTop(h, q, host, cfg, s, a.books, below, paid, f, false);
      StatedStays(host, s, s', f);
      MoveOn(h, q, host, cfg, s, a.books, s', a.books, below, paid, Reserve(f, false), Reserve(f, true));
      SplitTop(h, q, host, cfg, s', a.books, below, paid, f, true);
      SnapshotsStay(h, q, host, cfg, m, a, m', a');
    } else {
      assert SolventBelow(h, q, host, cfg, s, a.books, m.stack, a.paid, 0);
      MoveOn(h, q, host, cfg, s, a.books, s', a.books, m.stack, a.paid, 0, 0);
    }
  }

  lemma MoveIsSolvent(h: Hashes, q: Queries, host: Host, cfg: Config, m: Machine, a: Account, move: Move, hint: Hint)
    requires SameHashes(h, host) && CollisionFree(h, q) && cfg.feeBps <= MAX_FEE_BPS
    requires |a.saved| == |a.paid| == |m.stack| && MachineSolvent(h, q, host, cfg, m, a)
    requires HonestMove(cfg, m, a, move, hint) && WitnessedMove(h, q, host, cfg, m, move, hint)
    ensures MachineSolvent(h, q, host, cfg, Apply(host, cfg, m, move), AccountMove(host, cfg, m, a, move, hint))
  {
    hide Solvent, Resume, Begin, CollisionFree, WitnessedMove, HonestMove;
    match move
    case Enter(call, insertOutputs) => EnterIsSolvent(h, q, host, cfg, m, a, call, insertOutputs, hint);
    case LedgerMoves(balances) => LedgerIsSolvent(h, q, host, cfg, m, a, balances, hint);
    case _ =>
      if m.stack != [] {
        ResumeIsSolvent(h, q, host, cfg, m, a, move, hint);
        ProceedIsSolvent(h, q, host, cfg, m, a, BooksOfMove(cfg, m, a.books, move, hint),
                         Resume(host, cfg, m.state, m.stack[|m.stack| - 1], move));
      }
  }

  /**
   In every interleaving the pool's balance covers the unspent notes, the
   deposits on their way in and the payouts on their way out.
   */
  lemma {:induction false} InterleavingsAreSolvent(h: Hashes, q: Queries, host: Host, cfg: Config, start: State, moves: seq<Move>, hints: seq<Hint>)
    requires SameHashes(h, host) && CollisionFree(h, q) && Fresh(start) && cfg.feeBps <= MAX_FEE_BPS
    requires |hints| == |moves| && SoundMoves(h, q, host, cfg, start, moves, hints)
    ensures MachineSolvent(h, q, host, cfg, AfterMoves(host, cfg, Machine(start, []), moves), AccountMoves(host, cfg, start, moves, hints))
  {
    hide CollisionFree, MachineSolvent, Apply, AccountMove, HonestMove, WitnessedMove;
    if moves == [] {
      StartIsSolvent(h, q, host, cfg, start);
    } else {
      var n := |moves| - 1;
      InterleavingsAreSolvent(h, q, host, cfg, start, moves[..n], hints[..n]);
      MoveIsSolvent(h, q, host, cfg, AfterMoves(host, cfg, Machine(start, []), moves[..n]),
                    AccountMoves(host, cfg, start, moves[..n], hints[..n]), moves[n], hints[n]);
    }
  }

  lemma StartIsSolvent(h: Hashes, q: Queries, host: Host, cfg: Config, start: State)
    requires Fresh(start)
    ensures MachineSolvent(h, q, host, cfg, Machine(start, []), Account(Books([], [], map[], 0), [], []))
  {
  }

  /** The token's transfer for the call on top. */
  function PendingTransfer(cfg: Config, s: State, f: Frame): Option<map<Address, nat>>
    requires Paying(f)
  {
    match f.phase
    case PayingRecipient(payout, _) => Transfer(s.balances, cfg.self, f.call.ext.recipient, payout.recipientAmount)
    case PayingFee(payout, _) => Transfer(s.balances, cfg.self, cfg.feeRecipient, payout.fee)
  }

  /** However deep the nesting, the payout a call is waiting for goes through, and is an honest answer. */
  lemma {:induction false} NestedPayoutsAreCovered(h: Hashes, q: Queries, host: Host, cfg: Config, start: State, moves: seq<Move>, hints: seq<Hint>)
    requires SameHashes(h, host) && CollisionFree(h, q) && Fresh(start) && cfg.feeBps <= MAX_FEE_BPS
    requires |hints| == |moves| && SoundMoves(h, q, host, cfg, start, moves, hints)
    requires var m, a := AfterMoves(host, cfg, Machine(start, []), moves), AccountMoves(host, cfg, start, moves, hints);
             m.stack != [] && Paying(m.stack[|m.stack| - 1]) && !a.paid[|m.stack| - 1]
    ensures var m, a := AfterMoves(host, cfg, Machine(start, []), moves), AccountMoves(host, cfg, start, moves, hints);
            var paid := PendingTransfer(cfg, m.state, m.stack[|m.stack| - 1]);
            paid.Some? && forall hint :: HonestMove(cfg, m, a, TokenReturns(paid.value), hint)
  {
    hide CollisionFree, SoundMoves, AfterMoves, AccountMoves, InOrder, Outstanding;
    InterleavingsAreSolvent(h, q, host, cfg, start, moves, hints);
    var m, a := AfterMoves(host, cfg, Machine(start, []), moves), AccountMoves(host, cfg, start, moves, hints);
    var n := |m.stack| - 1;
    assert Owed(m.stack, a.paid) >= Reserve(m.stack[n], a.paid[n]);
  }
}
