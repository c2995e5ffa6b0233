/**
 What the log says over every run, event by event, told from the accepted calls
 and the leaves: who can open which output, and what each spend settled.
 */
module RunEvents {
  import opened Wrappers
  import opened PoolTypes
  import opened Settlement
  import opened PoolRuns

  /** An accepted call, and whether it inserted its outputs. */
  datatype Taken = Taken(call: Call, inserts: bool)

  /** The accepted calls that inserted outputs, in order. */
  ghost function Inserters(host: Host, cfg: Config, start: State, steps: seq<Step>): seq<Call> {
    if steps == [] then []
    else
      var n := |steps| - 1;
      Inserters(host, cfg, start, steps[..n]) +
      if steps[n].TransactStep? && Accepted(host, cfg, start, steps, n) then [steps[n].call] else []
  }

  /** For each nullifier spent, in order, the accepted call that spent it. */
  ghost function Spenders(host: Host, cfg: Config, start: State, steps: seq<Step>): seq<Taken> {
    if steps == [] then []
    else
      var n := |steps| - 1;
      Spenders(host, cfg, start, steps[..n]) +
      if !steps[n].OutsideStep? && Accepted(host, cfg, start, steps, n)
      then seq(|steps[n].call.proof.inputNullifiers|, _ => Taken(steps[n].call, steps[n].TransactStep?)) else []
  }

  // ---------- The three kinds of events

  function CommitmentsIn(events: seq<Event>): seq<Event> {
    if events == [] then []
    else
      var n := |events| - 1;
      CommitmentsIn(events[..n]) + if events[n].NewCommitment? then [events[n]] else []
  }

  function ClosingsIn(events: seq<Event>): seq<Event> {
    if events == [] then []
    else
      var n := |events| - 1;
      ClosingsIn(events[..n]) + if events[n].Settlement? || events[n].Exit? then [events[n]] else []
  }

  lemma {:induction false} CommitmentsConcat(a: seq<Event>, b: seq<Event>)
    ensures CommitmentsIn(a + b) == CommitmentsIn(a) + CommitmentsIn(b)
  {
    if b == [] {
      assert a + b == a;
    } else {
      var n := |b| - 1;
      assert (a + b)[..|a + b| - 1] == a + b[..n];
      CommitmentsConcat(a, b[..n]);
    }
  }

  lemma {:induction false} ClosingsConcat(a: seq<Event>, b: seq<Event>)
    ensures ClosingsIn(a + b) == ClosingsIn(a) + ClosingsIn(b)
  {
    if b == [] {
      assert a + b == a;
    } else {
      var n := |b| - 1;
      assert (a + b)[..|a + b| - 1] == a + b[..n];
      ClosingsConcat(a, b[..n]);
    }
  }

  lemma {:induction false} NoCommitments(events: seq<Event>)
    requires forall i :: 0 <= i < |events| ==> !events[i].NewCommitment?
    ensures CommitmentsIn(events) == []
  {
    if events != [] {
      NoCommitments(events[..|events| - 1]);
    }
  }

  lemma {:induction false} NoClosings(events: seq<Event>)
    requires forall i :: 0 <= i < |events| ==> events[i].NewNullifier? || events[i].NewCommitment?
    ensures ClosingsIn(events) == []
  {
    if events != [] {
      NoClosings(events[..|events| - 1]);
    }
  }

  lemma {:induction false} OnlyClosings(events: seq<Event>)
    requires forall i :: 0 <= i < |events| ==> IsSilent(events[i])
    ensures ClosingsIn(events) == events
  {
    if events != [] {
      var n := |events| - 1;
      OnlyClosings(events[..n]);
      assert IsSilent(events[n]) && events == events[..n] + [events[n]];
    }
  }

  /** The closing events of one call, field by field. */
  ghost predicate ClosesAt(e: Event, call: Call, at: Option<nat>, j: nat)
    requires j < |call.proof.inputNullifiers|
  {
    var p, ext := call.proof, call.ext;
    match at
    case Some(index) =>
      e == Event.Settlement(p.inputNullifiers[j], p.outputCommitment0, p.outputCommitment1, index, index + 1,
                            ext.extAmount, p.publicAmount, if ext.extAmount < 0 then Some(ext.recipient) else None)
    case None => e == Event.Exit(p.inputNullifiers[j], ext.extAmount, p.publicAmount, ext.recipient)
  }

  /** What one settlement appends to each kind of events. */
  lemma SettleAnnounces(host: Host, cfg: Config, s: State, call: Call, insertOutputs: bool) returns (closings: seq<Event>)
    requires Settle(host, cfg, s, call, insertOutputs).Ok?
    ensures var p, ext, events := call.proof, call.ext, Settle(host, cfg, s, call, insertOutputs).value.events;
            && NullifierLog(events) == NullifierLog(s.events) + p.inputNullifiers
            && CommitmentsIn(events) == CommitmentsIn(s.events) + OutputsTold(call, insertOutputs, |s.leaves|)
            && ClosingsIn(events) == ClosingsIn(s.events) + closings
    ensures ClosingsOf(closings, call, if insertOutputs then Some(|s.leaves|) else None)
  {
    var p, ext := call.proof, call.ext;
    var c := Commit(cfg, s, p, ext, insertOutputs).value;
    FinishKeepsStorage(cfg, c, p, ext);
    CommittedBy(cfg, s, p, ext, insertOutputs);
    var spends, said := NullifierEvents(p.inputNullifiers), Announcement(p, ext, c.payout, c.indices);
    assert Settle(host, cfg, s, call, insertOutputs).value.events == (s.events + spends) + said;
    hide *;
    closings := ClosingsIn(said);
    NullifierLogOfSpend(s.events, p.inputNullifiers);
    OthersInAnnouncement(s.events + spends, p, ext, c.payout, c.indices);
    SpendsSayNoMore(p.inputNullifiers);
    CommitmentsConcat(s.events, spends);
    CommitmentsConcat(s.events + spends, said);
    CommitmentsTold(call, c.payout, c.indices);
    ClosingsConcat(s.events, spends);
    ClosingsConcat(s.events + spends, said);
    ClosingsTold(call, c.payout, c.indices);
    AppendNothing(CommitmentsIn(s.events));
    AppendNothing(ClosingsIn(s.events));
  }

  lemma AppendNothing<T>(a: seq<T>)
    ensures a + [] == a
  {
  }

  lemma OthersInAnnouncement(events: seq<Event>, p: Proof, ext: ExtData, payout: Option<Payout>, indices: Option<(nat, nat)>)
    ensures NullifierLog(events + Announcement(p, ext, payout, indices)) == NullifierLog(events)
  {
    NullifierLogIgnoresOthers(events, Announcement(p, ext, payout, indices));
  }

  lemma SpendsSayNoMore(ns: seq<nat>)
    ensures CommitmentsIn(NullifierEvents(ns)) == [] && ClosingsIn(NullifierEvents(ns)) == []
  {
    NoCommitments(NullifierEvents(ns));
    NoClosings(NullifierEvents(ns));
  }

  /** The announcements of a call's outputs, from position `at` on. */
  function OutputsTold(call: Call, inserts: bool, at: nat): seq<Event> {
    if !inserts then []
    else
      [NewCommitment(call.proof.outputCommitment0, at, call.ext.encryptedOutput0),
       NewCommitment(call.proof.outputCommitment1, at + 1, call.ext.encryptedOutput1)]
  }

  ghost predicate ClosingsOf(closings: seq<Event>, call: Call, at: Option<nat>) {
    && |closings| == |call.proof.inputNullifiers|
    && forall j :: 0 <= j < |closings| ==> ClosesAt(closings[j], call, at, j)
  }

  lemma CommittedBy(cfg: Config, s: State, p: Proof, ext: ExtData, insertOutputs: bool)
    requires Commit(cfg, s, p, ext, insertOutputs).Ok?
    ensures var c := Commit(cfg, s, p, ext, insertOutputs).value;
            && c.state.events == s.events + NullifierEvents(p.inputNullifiers)
            && c.indices == (if insertOutputs then Some((|s.leaves|, |s.leaves| + 1)) else None)
            && (c.payout.Some? <==> ext.extAmount < 0)
  {
  }

  lemma CommitmentsTold(call: Call, payout: Option<Payout>, indices: Option<(nat, nat)>)
    requires indices.Some? ==> indices.value.1 == indices.value.0 + 1
    ensures CommitmentsIn(Announcement(call.proof, call.ext, payout, indices))
            == OutputsTold(call, indices.Some?, if indices.Some? then indices.value.0 else 0)
  {
    var p, ext := call.proof, call.ext;
    if indices.None? {
      NoCommitments(ExitEvents(p, ext));
    } else {
      var at := indices.value.0;
      var first := [NewCommitment(p.outputCommitment0, at, ext.encryptedOutput0)];
      var second := [NewCommitment(p.outputCommitment1, at + 1, ext.encryptedOutput1)];
      var closing := SettlementEvents(p, ext, indices.value, if payout.Some? then Some(ext.recipient) else None);
      assert Announcement(p, ext, payout, indices) == (first + second) + closing;
      NoCommitments(closing);
      CommitmentsConcat(first + second, closing);
      CommitmentsConcat(first, second);
      assert first[..0] == [] && second[..0] == [];
    }
  }

  lemma ClosingsTold(call: Call, payout: Option<Payout>, indices: Option<(nat, nat)>)
    requires indices.Some? ==> indices.value.1 == indices.value.0 + 1
    requires payout.Some? <==> call.ext.extAmount < 0
    ensures ClosingsOf(ClosingsIn(Announcement(call.proof, call.ext, payout, indices)), call,
                       if indices.Some? then Some(indices.value.0) else None)
  {
    var p, ext := call.proof, call.ext;
    if indices.None? {
      OnlyClosings(ExitEvents(p, ext));
    } else {
      var at := indices.value.0;
      var outputs := [NewCommitment(p.outputCommitment0, at, ext.encryptedOutput0), NewCommitment(p.outputCommitment1, at + 1, ext.encryptedOutput1)];
      var closing := SettlementEvents(p, ext, indices.value, if payout.Some? then Some(ext.recipient) else None);
      assert Announcement(p, ext, payout, indices) == outputs + closing;
      NoClosings(outputs);
      OnlyClosings(closing);
      ClosingsConcat(outputs, closing);
    }
  }

  // ---------- Over runs

  /** The event that announces leaf `i`: its position, and the payload of the output it is. */
  function Announces(leaves: seq<nat>, inserters: seq<Call>, i: nat): Event
    requires i < |leaves| == 2 * |inserters|
  {
    var ext := inserters[i / 2].ext;
    NewCommitment(leaves[i], i, if i % 2 == 0 then ext.encryptedOutput0 else ext.encryptedOutput1)
  }

  ghost predicate LeavesAnnounced(s: State, inserters: seq<Call>) {
    && |s.leaves| == 2 * |inserters| == |CommitmentsIn(s.events)|
    && forall i: nat :: i < |s.leaves| ==> CommitmentsIn(s.events)[i] == Announces(s.leaves, inserters, i)
  }

  /** The event that closes the spend of `nullifier` by this call, with the outputs where the tree holds them. */
  predicate Closes(s: State, e: Event, nullifier: nat, taken: Taken) {
    var p, ext := taken.call.proof, taken.call.ext;
    if taken.inserts then
      && e.Settlement? && e.nullifier == nullifier && e.amountBucket == ext.extAmount && e.publicAmount == p.publicAmount
      && e.outputCommitment0 == p.outputCommitment0 && e.outputCommitment1 == p.outputCommitment1
      && e.outputIndex0 < |s.leaves| && s.leaves[e.outputIndex0] == p.outputCommitment0
      && e.outputIndex1 < |s.leaves| && s.leaves[e.outputIndex1] == p.outputCommitment1
      && e.recipient == if ext.extAmount < 0 then Some(ext.recipient) else None
    else
      && e.Exit? && e.nullifier == nullifier && e.amountBucket == ext.extAmount && e.publicAmount == p.publicAmount
      && e.to == ext.recipient
  }

  ghost predicate SpendsClosed(s: State, spent: seq<nat>, spenders: seq<Taken>) {
    && NullifierLog(s.events) == spent
    && |ClosingsIn(s.events)| == |spent| == |spenders|
    && forall i :: 0 <= i < |spent| ==> Closes(s, ClosingsIn(s.events)[i], spent[i], spenders[i])
  }

  lemma LeavesStayAnnounced(s: State, s': State, inserters: seq<Call>, call: Call)
    requires LeavesAnnounced(s, inserters)
    requires s'.leaves == s.leaves + [call.proof.outputCommitment0, call.proof.outputCommitment1]
    requires CommitmentsIn(s'.events) == CommitmentsIn(s.events) + OutputsTold(call, true, |s.leaves|)
    ensures LeavesAnnounced(s', inserters + [call])
  {
    hide CommitmentsIn;
    var k, all := |inserters|, inserters + [call];
    forall i: nat | i < |s'.leaves|
      ensures CommitmentsIn(s'.events)[i] == Announces(s'.leaves, all, i)
    {
      if i < 2 * k {
        assert CommitmentsIn(s.events)[i] == Announces(s.leaves, inserters, i);
        assert all[i / 2] == inserters[i / 2];
      }
    }
  }

  lemma SpendsStayClosed(s: State, s': State, spent: seq<nat>, spenders: seq<Taken>, call: Call, inserts: bool, closings: seq<Event>)
    requires SpendsClosed(s, spent, spenders)
    requires s'.leaves == s.leaves + if inserts then [call.proof.outputCommitment0, call.proof.outputCommitment1] else []
    requires NullifierLog(s'.events) == NullifierLog(s.events) + call.proof.inputNullifiers
    requires ClosingsIn(s'.events) == ClosingsIn(s.events) + closings
    requires ClosingsOf(closings, call, if inserts then Some(|s.leaves|) else None)
    ensures SpendsClosed(s', spent + call.proof.inputNullifiers,
                         spenders + seq(|call.proof.inputNullifiers|, _ => Taken(call, inserts)))
  {
    hide ClosingsIn, NullifierLog;
    var ns := call.proof.inputNullifiers;
    var spent', spenders' := spent + ns, spenders + seq(|ns|, _ => Taken(call, inserts));
    forall i | 0 <= i < |spent'|
      ensures Closes(s', ClosingsIn(s'.events)[i], spent'[i], spenders'[i])
    {
      if i < |spent| {
        assert Closes(s, ClosingsIn(s.events)[i], spent[i], spenders[i]);
      } else {
        assert ClosesAt(closings[i - |spent|], call, if inserts then Some(|s.leaves|) else None, i - |spent|);
      }
    }
  }

  lemma BalancesSayNothing(s: State, s': State, inserters: seq<Call>, spent: seq<nat>, spenders: seq<Taken>)
    requires s' == s.(balances := s'.balances) && LeavesAnnounced(s, inserters) && SpendsClosed(s, spent, spenders)
    ensures LeavesAnnounced(s', inserters) && SpendsClosed(s', spent, spenders)
  {
  }

  /** One accepted call, from the state in which its settlement starts. */
  lemma CallIsTold(host: Host, cfg: Config, s: State, call: Call, inserts: bool, inserters: seq<Call>, spent: seq<nat>, spenders: seq<Taken>)
    requires Settle(host, cfg, s, call, inserts).Ok? && LeavesAnnounced(s, inserters) && SpendsClosed(s, spent, spenders)
    ensures var s' := Settle(host, cfg, s, call, inserts).value;
            && LeavesAnnounced(s', inserters + if inserts then [call] else [])
            && SpendsClosed(s', spent + call.proof.inputNullifiers,
                            spenders + seq(|call.proof.inputNullifiers|, _ => Taken(call, inserts)))
  {
    SettleEffect(host, cfg, s, call, inserts);
    var closings := SettleAnnounces(host, cfg, s, call, inserts);
    hide Settle, SpendsClosed, CommitmentsIn, NullifierLog, ClosingsIn, ClosingsOf;
    var s' := Settle(host, cfg, s, call, inserts).value;
    SpendsStayClosed(s, s', spent, spenders, call, inserts, closings);
    if inserts {
      LeavesStayAnnounced(s, s', inserters, call);
    } else {
      assert s'.leaves == s.leaves && CommitmentsIn(s'.events) == CommitmentsIn(s.events);
      assert inserters + [] == inserters;
    }
  }

  lemma {:induction false} LogIsTold(host: Host, cfg: Config, start: State, steps: seq<Step>)
    requires Fresh(start)
    ensures var s := After(host, cfg, start, steps);
            && LeavesAnnounced(s, Inserters(host, cfg, start, steps))
            && SpendsClosed(s, SpentBy(host, cfg, start, steps), Spenders(host, cfg, start, steps))
  {
    hide LeavesAnnounced, SpendsClosed, Settle;
    if steps == [] {
      NothingTold(start);
    } else {
      var n := |steps| - 1;
      LogIsTold(host, cfg, start, steps[..n]);
      var s := After(host, cfg, start, steps[..n]);
      var inserters, spent, spenders := Inserters(host, cfg, start, steps[..n]), SpentBy(host, cfg, start, steps[..n]), Spenders(host, cfg, start, steps[..n]);
      if Accepted(host, cfg, start, steps, n) {
        match steps[n]
        case TransactStep(call) =>
          var s1 := TakeDeposit(cfg, s, call).value;
          BalancesSayNothing(s, s1, inserters, spent, spenders);
          CallIsTold(host, cfg, s1, call, true, inserters, spent, spenders);
        case ExitStep(call) =>
          CallIsTold(host, cfg, s, call, false, inserters, spent, spenders);
          assert inserters + [] == inserters;
        case OutsideStep(_, _, _) =>
          BalancesSayNothing(s, After(host, cfg, start, steps), inserters, spent, spenders);
          assert inserters + [] == inserters && spent + [] == spent && spenders + [] == spenders;
      } else {
        assert inserters + [] == inserters && spent + [] == spent && spenders + [] == spenders;
      }
    }
  }

  lemma NothingTold(start: State)
    requires Fresh(start)
    ensures LeavesAnnounced(start, []) && SpendsClosed(start, [], [])
  {
  }

  /** In every run leaf `i` is announced once, at its position, with the payload of the output it is. */
  lemma {:induction false} EveryLeafIsAnnounced(host: Host, cfg: Config, start: State, steps: seq<Step>)
    requires Fresh(start)
    ensures var s, calls := After(host, cfg, start, steps), Inserters(host, cfg, start, steps);
            && |CommitmentsIn(s.events)| == |s.leaves| == 2 * |calls|
            && forall i: nat :: i < |s.leaves| ==>
                 && s.leaves[i] == (if i % 2 == 0 then calls[i / 2].proof.outputCommitment0 else calls[i / 2].proof.outputCommitment1)
                 && CommitmentsIn(s.events)[i]
                    == NewCommitment(s.leaves[i], i, if i % 2 == 0 then calls[i / 2].ext.encryptedOutput0 else calls[i / 2].ext.encryptedOutput1)
  {
    LogIsTold(host, cfg, start, steps);
    LeavesAreTheInserters(host, cfg, start, steps);
  }

  lemma {:induction false} LeavesAreTheInserters(host: Host, cfg: Config, start: State, steps: seq<Step>)
    requires Fresh(start)
    ensures var s, calls := After(host, cfg, start, steps), Inserters(host, cfg, start, steps);
            && |s.leaves| == 2 * |calls|
            && forall i: nat :: i < |s.leaves| ==>
                 s.leaves[i] == if i % 2 == 0 then calls[i / 2].proof.outputCommitment0 else calls[i / 2].proof.outputCommitment1
  {
    hide Execute;
    if steps != [] {
      var n := |steps| - 1;
      LeavesAreTheInserters(host, cfg, start, steps[..n]);
      var s := After(host, cfg, start, steps[..n]);
      StepLeaves(host, cfg, s, steps[n]);
    }
  }

  /** In every run each spend leaves one nullifier event and one closing event that says what its call settled. */
  lemma {:induction false} EverySpendIsClosed(host: Host, cfg: Config, start: State, steps: seq<Step>)
    requires Fresh(start)
    ensures var s := After(host, cfg, start, steps);
            var spent, spenders := SpentBy(host, cfg, start, steps), Spenders(host, cfg, start, steps);
            && NullifierLog(s.events) == spent && |ClosingsIn(s.events)| == |spent| == |spenders|
            && forall i :: 0 <= i < |spent| ==> Closes(s, ClosingsIn(s.events)[i], spent[i], spenders[i])
  {
    LogIsTold(host, cfg, start, steps);
  }
}
