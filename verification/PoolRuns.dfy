/** Runs of the pool: any sequence of calls and of token transfers it is not part of. */
module PoolRuns {
  import opened Wrappers
  import opened Numbers
  import opened PoolTypes
  import opened Amounts
  import opened VerifierBoundary
  import opened Settlement
  import Groth16Verifier

  /** A transaction on the ledger: one of the pool's entrypoints, or a transfer between others. */
  datatype Step =
    | TransactStep(call: Call)
    | ExitStep(call: Call)
    | OutsideStep(from: Address, to: Address, amount: nat)

  ghost function Execute(host: Host, cfg: Config, s: State, step: Step): Result<State, ContractError> {
    match step
    case TransactStep(call) => Transact(host, cfg, s, call)
    case ExitStep(call) => ExitPool(host, cfg, s, call)
    case OutsideStep(from, to, amount) =>
      if from == cfg.self then Err(Trapped(Unauthorized)) else MoveTokens(s, from, to, amount)
  }

  /** The host drops the writes of a call that fails. */
  ghost function Next(host: Host, cfg: Config, s: State, step: Step): State {
    match Execute(host, cfg, s, step)
    case Ok(s') => s'
    case Err(_) => s
  }

  ghost function After(host: Host, cfg: Config, start: State, steps: seq<Step>): State {
    if steps == [] then start
    else Next(host, cfg, After(host, cfg, start, steps[..|steps| - 1]), steps[|steps| - 1])
  }

  /** Step `i` of the run was accepted. */
  ghost predicate Accepted(host: Host, cfg: Config, start: State, steps: seq<Step>, i: nat)
    requires i < |steps|
  {
    Execute(host, cfg, After(host, cfg, start, steps[..i]), steps[i]).Ok?
  }

  /** A pool as constructed, with whatever balances the token already has. */
  predicate Fresh(s: State) {
    s == Initial(s.levels).(balances := s.balances) && 1 <= s.levels <= 32
  }

  // ---------- What one accepted call does

  /** An accepted call passed every check, and its pool-side effect is this. */
  ghost predicate SettledBy(host: Host, s: State, s': State, call: Call, insertOutputs: bool) {
    var p, ext := call.proof, call.ext;
    && ProofInField(p) && KnownRoot(host, s, p.root) && Unspent(s.nullifiers, p.inputNullifiers)
    && host.hashExtData(ext) == p.extDataHash && PublicAmount(ext.extAmount) == Ok(p.publicAmount)
    && call.answers.aspRoot == p.aspMembershipRoot
    && call.answers.verify(p.proof, PublicInputs(p)) == Ok(true)
    && s'.levels == s.levels
    && s'.nullifiers == s.nullifiers + Elements(p.inputNullifiers)
    && (insertOutputs ==>
          && !OutputsUsed(s, p) && !Full(s)
          && s'.leaves == s.leaves + [p.outputCommitment0, p.outputCommitment1]
          && s'.commitments == s.commitments + {p.outputCommitment0, p.outputCommitment1})
    && (!insertOutputs ==> s'.leaves == s.leaves && s'.commitments == s.commitments)
  }

  lemma SettleEffect(host: Host, cfg: Config, s: State, call: Call, insertOutputs: bool)
    requires Settle(host, cfg, s, call, insertOutputs).Ok?
    ensures SettledBy(host, s, Settle(host, cfg, s, call, insertOutputs).value, call, insertOutputs)
    ensures PlanPayout(cfg, call.ext).Ok?
  {
  }

  lemma TransactEffect(host: Host, cfg: Config, s: State, call: Call)
    requires Transact(host, cfg, s, call).Ok?
    ensures call.authorized
    ensures SettledBy(host, s, Transact(host, cfg, s, call).value, call, true)
    ensures PlanPayout(cfg, call.ext).Ok?
  {
    var s1 := TakeDeposit(cfg, s, call).value;
    SettleEffect(host, cfg, s1, call, true);
  }

  lemma ExitEffect(host: Host, cfg: Config, s: State, call: Call)
    requires ExitPool(host, cfg, s, call).Ok?
    ensures call.authorized && Full(s) && call.ext.extAmount < 0
    ensures SettledBy(host, s, ExitPool(host, cfg, s, call).value, call, false)
    ensures PlanPayout(cfg, call.ext).Ok?
  {
    SettleEffect(host, cfg, s, call, false);
  }

  // ---------- Histories

  /** The nullifiers of every accepted call, in order. */
  ghost function SpentBy(host: Host, cfg: Config, start: State, steps: seq<Step>): seq<nat> {
    if steps == [] then []
    else
      var n := |steps| - 1;
      SpentBy(host, cfg, start, steps[..n]) +
      if !steps[n].OutsideStep? && Accepted(host, cfg, start, steps, n) then steps[n].call.proof.inputNullifiers else []
  }

  /** The outputs of every accepted `transact`, in order. */
  ghost function InsertedBy(host: Host, cfg: Config, start: State, steps: seq<Step>): seq<nat> {
    if steps == [] then []
    else
      var n := |steps| - 1;
      InsertedBy(host, cfg, start, steps[..n]) +
      if steps[n].TransactStep? && Accepted(host, cfg, start, steps, n)
      then [steps[n].call.proof.outputCommitment0, steps[n].call.proof.outputCommitment1] else []
  }

  /** How many steps were accepted calls of `transact`. */
  ghost function Transactions(host: Host, cfg: Config, start: State, steps: seq<Step>): nat {
    if steps == [] then 0
    else
      var n := |steps| - 1;
      Transactions(host, cfg, start, steps[..n]) +
      if steps[n].TransactStep? && Accepted(host, cfg, start, steps, n) then 1 else 0
  }

  ghost function Exits(host: Host, cfg: Config, start: State, steps: seq<Step>): nat {
    if steps == [] then 0
    else
      var n := |steps| - 1;
      Exits(host, cfg, start, steps[..n]) +
      if steps[n].ExitStep? && Accepted(host, cfg, start, steps, n) then 1 else 0
  }

  // ---------- Single spend

  lemma ElementsOfConcat(a: seq<nat>, b: seq<nat>)
    ensures Elements(a + b) == Elements(a) + Elements(b)
  {
    assert forall x :: x in a + b <==> x in a || x in b;
  }

  lemma NoRepeatsConcat(a: seq<nat>, b: seq<nat>)
    requires NoRepeats(a) && Unspent(Elements(a), b)
    ensures NoRepeats(a + b)
  {
    forall i, j | 0 <= i < j < |a + b|
      ensures (a + b)[i] != (a + b)[j]
    {
      if i < |a| <= j {
        assert a[i] in Elements(a) && b[j - |a|] !in Elements(a);
      }
    }
  }

  /** No nullifier is ever accepted twice, and the stored set is exactly those accepted. */
  lemma {:induction false} NotesAreSpentOnce(host: Host, cfg: Config, start: State, steps: seq<Step>)
    requires Fresh(start)
    ensures NoRepeats(SpentBy(host, cfg, start, steps))
    ensures After(host, cfg, start, steps).nullifiers == Elements(SpentBy(host, cfg, start, steps))
  {
    if steps != [] {
      var n := |steps| - 1;
      NotesAreSpentOnce(host, cfg, start, steps[..n]);
      var s := After(host, cfg, start, steps[..n]);
      var spent := SpentBy(host, cfg, start, steps[..n]);
      if !steps[n].OutsideStep? && Accepted(host, cfg, start, steps, n) {
        var call := steps[n].call;
        if steps[n].TransactStep? {
          TransactEffect(host, cfg, s, call);
        } else {
          ExitEffect(host, cfg, s, call);
        }
        ElementsOfConcat(spent, call.proof.inputNullifiers);
        NoRepeatsConcat(spent, call.proof.inputNullifiers);
      }
    }
  }

  /** The verifier accepts only input vectors of the embedded key's length. */
  ghost predicate UsesEmbeddedKey(step: Step) {
    step.OutsideStep? ||
    forall proof: Groth16Proof, inputs: seq<nat> {:trigger step.call.answers.verify(proof, inputs)} ::
      step.call.answers.verify(proof, inputs) == Ok(true) ==> |inputs| + 1 == Groth16Verifier.VK_IC_COUNT
  }

  /** Under the embedded key every accepted call spends exactly two nullifiers. */
  lemma {:induction false} EachCallSpendsTwo(host: Host, cfg: Config, start: State, steps: seq<Step>)
    requires forall i :: 0 <= i < |steps| ==> UsesEmbeddedKey(steps[i])
    ensures |SpentBy(host, cfg, start, steps)|
            == 2 * (Transactions(host, cfg, start, steps) + Exits(host, cfg, start, steps))
  {
    if steps != [] {
      var n := |steps| - 1;
      EachCallSpendsTwo(host, cfg, start, steps[..n]);
      var s := After(host, cfg, start, steps[..n]);
      if !steps[n].OutsideStep? && Accepted(host, cfg, start, steps, n) {
        var call := steps[n].call;
        if steps[n].TransactStep? {
          TransactEffect(host, cfg, s, call);
        } else {
          ExitEffect(host, cfg, s, call);
        }
        assert UsesEmbeddedKey(steps[n]);
        Groth16Verifier.EmbeddedKeyTakesTwoNullifiers(call.proof);
      }
    }
  }

  // ---------- Commitments and leaves

  /** The leaves are distinct field elements, two per transaction, and exactly the commitments stored. */
  ghost predicate LeavesMatchCommitments(s: State) {
    && 1 <= s.levels <= 32 && |s.leaves| % 2 == 0 && |s.leaves| <= Pow2(s.levels)
    && AllInField(s.leaves) && NoRepeats(s.leaves) && s.commitments == Elements(s.leaves)
  }

  lemma PairIsUnused(s: State, p: Proof)
    requires LeavesMatchCommitments(s) && ProofInField(p) && !OutputsUsed(s, p) && !Full(s)
    ensures LeavesMatchCommitments(InsertOutputs(s, p))
  {
    var pair := [p.outputCommitment0, p.outputCommitment1];
    ElementsOfConcat(s.leaves, pair);
    NoRepeatsConcat(s.leaves, pair);
    assert Elements(pair) == {p.outputCommitment0, p.outputCommitment1} by {
      assert forall x :: x in pair <==> x == pair[0] || x == pair[1];
    }
  }

  /** Every step keeps leaves and commitments in agreement. */
  lemma StepKeepsLeavesMatched(host: Host, cfg: Config, s: State, step: Step)
    requires LeavesMatchCommitments(s)
    ensures LeavesMatchCommitments(Next(host, cfg, s, step))
  {
    if Execute(host, cfg, s, step).Ok? {
      match step
      case TransactStep(call) =>
        TransactEffect(host, cfg, s, call);
        PairIsUnused(s, call.proof);
        assert Next(host, cfg, s, step).leaves == InsertOutputs(s, call.proof).leaves;
        assert Next(host, cfg, s, step).commitments == InsertOutputs(s, call.proof).commitments;
      case ExitStep(call) => ExitEffect(host, cfg, s, call);
      case OutsideStep(_, _, _) =>
    }
  }

  lemma {:induction false} LeavesAlwaysMatch(host: Host, cfg: Config, start: State, steps: seq<Step>)
    requires Fresh(start)
    ensures LeavesMatchCommitments(After(host, cfg, start, steps))
  {
    if steps != [] {
      var n := |steps| - 1;
      LeavesAlwaysMatch(host, cfg, start, steps[..n]);
      StepKeepsLeavesMatched(host, cfg, After(host, cfg, start, steps[..n]), steps[n]);
    }
  }

  /** A step adds the outputs of an accepted `transact` to the leaves, and nothing else ever does. */
  lemma StepLeaves(host: Host, cfg: Config, s: State, step: Step)
    ensures var s' := Next(host, cfg, s, step);
            && s'.levels == s.levels
            && s'.leaves == s.leaves + if step.TransactStep? && Execute(host, cfg, s, step).Ok?
                                       then [step.call.proof.outputCommitment0, step.call.proof.outputCommitment1] else []
  {
    if Execute(host, cfg, s, step).Ok? {
      match step
      case TransactStep(call) => TransactEffect(host, cfg, s, call);
      case ExitStep(call) => ExitEffect(host, cfg, s, call);
      case OutsideStep(_, _, _) =>
    }
  }

  /** The tree holds the outputs of the accepted transactions, in order. */
  lemma {:induction false} LeavesAreTheAcceptedOutputs(host: Host, cfg: Config, start: State, steps: seq<Step>)
    requires Fresh(start)
    ensures After(host, cfg, start, steps).leaves == InsertedBy(host, cfg, start, steps)
  {
    if steps != [] {
      var n := |steps| - 1;
      LeavesAreTheAcceptedOutputs(host, cfg, start, steps[..n]);
      StepLeaves(host, cfg, After(host, cfg, start, steps[..n]), steps[n]);
    }
  }

  /** `NextIndex` is twice the number of accepted transactions, and never exceeds the capacity. */
  lemma {:induction false} TwoLeavesPerTransaction(host: Host, cfg: Config, start: State, steps: seq<Step>)
    requires Fresh(start)
    ensures var s := After(host, cfg, start, steps);
            s.levels == start.levels && |s.leaves| == 2 * Transactions(host, cfg, start, steps) <= Pow2(start.levels)
  {
    if steps == [] {
      Pow2Even(start.levels);
    } else {
      var n := |steps| - 1;
      TwoLeavesPerTransaction(host, cfg, start, steps[..n]);
      var s := After(host, cfg, start, steps[..n]);
      StepLeaves(host, cfg, s, steps[n]);
      if steps[n].TransactStep? && Accepted(host, cfg, start, steps, n) {
        TransactEffect(host, cfg, s, steps[n].call);
      }
    }
  }

  // ---------- Event replay

  /** What an indexer rebuilds from the log: leaves in order, and the spent set. */
  datatype Index = Index(leaves: seq<nat>, nullifiers: set<nat>, consistent: bool)

  /** A commitment must carry the next free position; settlement and exit events add nothing. */
  function Replay(events: seq<Event>): Index {
    if events == [] then Index([], {}, true)
    else
      var before := Replay(events[..|events| - 1]);
      match events[|events| - 1]
      case NewCommitment(c, index, _) =>
        before.(leaves := before.leaves + [c], consistent := before.consistent && index == |before.leaves|)
      case NewNullifier(n) => before.(nullifiers := before.nullifiers + {n})
      case Settlement(_, _, _, _, _, _, _, _) => before
      case Exit(_, _, _, _) => before
  }

  predicate IsSilent(e: Event) {
    e.Settlement? || e.Exit?
  }

  lemma {:induction false} ReplaySilent(events: seq<Event>, more: seq<Event>)
    requires forall i :: 0 <= i < |more| ==> IsSilent(more[i])
    ensures Replay(events + more) == Replay(events)
  {
    if more == [] {
      assert events + more == events;
    } else {
      var n := |more| - 1;
      assert (events + more)[..|events + more| - 1] == events + more[..n];
      ReplaySilent(events, more[..n]);
      assert IsSilent(more[n]);
    }
  }

  lemma {:induction false} ReplayNullifiers(events: seq<Event>, ns: seq<nat>)
    ensures Replay(events + NullifierEvents(ns))
            == Replay(events).(nullifiers := Replay(events).nullifiers + Elements(ns))
  {
    var log := events + NullifierEvents(ns);
    if ns == [] {
      assert log == events;
    } else {
      var n := |ns| - 1;
      assert log[..|log| - 1] == events + NullifierEvents(ns[..n]);
      ReplayNullifiers(events, ns[..n]);
      assert Elements(ns) == Elements(ns[..n]) + {ns[n]} by {
        assert ns == ns[..n] + [ns[n]];
      }
    }
  }

  lemma ReplayCommitment(events: seq<Event>, c: nat, index: nat, payload: Bytes)
    ensures var r, r' := Replay(events), Replay(events + [NewCommitment(c, index, payload)]);
            r' == Index(r.leaves + [c], r.nullifiers, r.consistent && index == |r.leaves|)
  {
    var log := events + [NewCommitment(c, index, payload)];
    assert log[..|log| - 1] == events;
  }

  /** The log replays to this state. */
  ghost predicate LogMatches(s: State) {
    Replay(s.events) == Index(s.leaves, s.nullifiers, true)
  }

  lemma AnnouncementReplays(s: State, p: Proof, ext: ExtData, payout: Option<Payout>, indices: Option<(nat, nat)>)
    ensures var r, r' := Replay(s.events), Replay(s.events + Announcement(p, ext, payout, indices));
            r' == if indices.None? then r
                  else Index(r.leaves + [p.outputCommitment0, p.outputCommitment1], r.nullifiers,
                             r.consistent && indices.value == (|r.leaves|, |r.leaves| + 1))
  {
    if indices.None? {
      ReplaySilent(s.events, ExitEvents(p, ext));
    } else {
      var recipient := if payout.Some? then Some(ext.recipient) else None;
      var first := NewCommitment(p.outputCommitment0, indices.value.0, ext.encryptedOutput0);
      var second := NewCommitment(p.outputCommitment1, indices.value.1, ext.encryptedOutput1);
      var closing := SettlementEvents(p, ext, indices.value, recipient);
      ReplayCommitment(s.events, p.outputCommitment0, indices.value.0, ext.encryptedOutput0);
      ReplayCommitment(s.events + [first], p.outputCommitment1, indices.value.1, ext.encryptedOutput1);
      ReplaySilent(s.events + [first] + [second], closing);
      assert s.events + Announcement(p, ext, payout, indices) == s.events + [first] + [second] + closing;
    }
  }

  lemma FinishKeepsStorage(cfg: Config, c: Committed, p: Proof, ext: ExtData)
    requires Finish(cfg, c, p, ext).Ok?
    ensures var s := Finish(cfg, c, p, ext).value;
            s == c.state.(balances := s.balances, events := c.state.events + Announcement(p, ext, c.payout, c.indices))
  {
  }

  lemma SettleReplays(host: Host, cfg: Config, s: State, call: Call, insertOutputs: bool)
    requires LogMatches(s) && Settle(host, cfg, s, call, insertOutputs).Ok?
    ensures LogMatches(Settle(host, cfg, s, call, insertOutputs).value)
  {
    var p := call.proof;
    hide CheckStatement, CheckProof, Finish, Replay, Announcement;
    var c := Commit(cfg, s, p, call.ext, insertOutputs).value;
    FinishKeepsStorage(cfg, c, p, call.ext);
    ReplayNullifiers(s.events, p.inputNullifiers);
    AnnouncementReplays(c.state, p, call.ext, c.payout, c.indices);
  }

  /** Replaying the log always rebuilds the leaves, hence the root, and the spent set. */
  lemma {:induction false} EventsRebuildTheState(host: Host, cfg: Config, start: State, steps: seq<Step>)
    requires Fresh(start)
    ensures LogMatches(After(host, cfg, start, steps))
  {
    if steps != [] {
      var n := |steps| - 1;
      EventsRebuildTheState(host, cfg, start, steps[..n]);
      var s := After(host, cfg, start, steps[..n]);
      if Accepted(host, cfg, start, steps, n) {
        match steps[n]
        case TransactStep(call) => SettleReplays(host, cfg, TakeDeposit(cfg, s, call).value, call, true);
        case ExitStep(call) => SettleReplays(host, cfg, s, call, false);
        case OutsideStep(_, _, _) =>
      }
    }
  }

  // ---------- Spends in the log

  /** The nullifiers announced in the log, in order. */
  function NullifierLog(events: seq<Event>): seq<nat> {
    if events == [] then []
    else
      var n := |events| - 1;
      NullifierLog(events[..n]) + if events[n].NewNullifier? then [events[n].nullifier] else []
  }

  lemma {:induction false} NullifierLogOfSpend(events: seq<Event>, ns: seq<nat>)
    ensures NullifierLog(events + NullifierEvents(ns)) == NullifierLog(events) + ns
  {
    var log := events + NullifierEvents(ns);
    if ns == [] {
      assert log == events;
    } else {
      var n := |ns| - 1;
      assert log[..|log| - 1] == events + NullifierEvents(ns[..n]);
      NullifierLogOfSpend(events, ns[..n]);
      assert ns == ns[..n] + [ns[n]];
    }
  }

  lemma {:induction false} NullifierLogIgnoresOthers(events: seq<Event>, more: seq<Event>)
    requires forall i :: 0 <= i < |more| ==> !more[i].NewNullifier?
    ensures NullifierLog(events + more) == NullifierLog(events)
  {
    if more == [] {
      assert events + more == events;
    } else {
      var n := |more| - 1;
      assert (events + more)[..|events + more| - 1] == events + more[..n];
      NullifierLogIgnoresOthers(events, more[..n]);
    }
  }

  // ---------- Fullness

  lemma {:induction false} FullAtCapacity(s: State, pairs: nat)
    requires s.levels >= 1 && |s.leaves| == 2 * pairs && |s.leaves| <= Pow2(s.levels)
    ensures Full(s) <==> pairs == Pow2(s.levels - 1)
  {
  }

  /** The tree is full after exactly half of 2^levels transactions. */
  lemma {:induction false} FullAfterHalfTheLeaves(host: Host, cfg: Config, start: State, steps: seq<Step>)
    requires Fresh(start)
    ensures Full(After(host, cfg, start, steps))
            <==> Transactions(host, cfg, start, steps) == Pow2(start.levels - 1)
  {
    TwoLeavesPerTransaction(host, cfg, start, steps);
    FullAtCapacity(After(host, cfg, start, steps), Transactions(host, cfg, start, steps));
  }

  /** Leaves are never removed, so a full tree stays full. */
  lemma {:induction false} FullIsAbsorbing(host: Host, cfg: Config, start: State, steps: seq<Step>)
    requires Full(start)
    ensures Full(After(host, cfg, start, steps))
  {
    if steps != [] {
      var n := |steps| - 1;
      FullIsAbsorbing(host, cfg, start, steps[..n]);
      StepLeaves(host, cfg, After(host, cfg, start, steps[..n]), steps[n]);
    }
  }

  lemma {:induction false} AfterConcat(host: Host, cfg: Config, start: State, a: seq<Step>, b: seq<Step>)
    ensures After(host, cfg, start, a + b) == After(host, cfg, After(host, cfg, start, a), b)
  {
    if b == [] {
      assert a + b == a;
    } else {
      var n := |b| - 1;
      assert (a + b)[..|a + b| - 1] == a + b[..n];
      AfterConcat(host, cfg, start, a, b[..n]);
    }
  }

  /** In every run all accepted `transact` calls come before all accepted `exit` calls. */
  lemma {:induction false} TransactionsPrecedeExits(host: Host, cfg: Config, start: State, steps: seq<Step>, i: nat, j: nat)
    requires i < |steps| && steps[i].ExitStep? && Accepted(host, cfg, start, steps, i)
    requires j < |steps| && steps[j].TransactStep? && Accepted(host, cfg, start, steps, j)
    ensures j < i
  {
    var s := After(host, cfg, start, steps[..i]);
    ExitEffect(host, cfg, s, steps[i].call);
    TransactEffect(host, cfg, After(host, cfg, start, steps[..j]), steps[j].call);
    if i < j {
      assert steps[..j] == steps[..i] + steps[i..j];
      AfterConcat(host, cfg, start, steps[..i], steps[i..j]);
      FullIsAbsorbing(host, cfg, s, steps[i..j]);
    }
  }
}
