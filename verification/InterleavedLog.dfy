/**
 The event log under nesting. A commitment is announced only after its call's
 payouts, so calls nested in a payout announce theirs first. Read by position
 the log is always right; read in order it is right exactly when no insertion
 that was kept happened above a call that was paying out and inserting.
 */
module InterleavedLog {
  import opened Wrappers
  import opened Numbers
  import opened MerkleSpec
  import opened RootHistory
  import opened PoolTypes
  import opened Amounts
  import opened Settlement
  import opened PoolRuns
  import opened Interleaving

  /** The announced commitments and their positions, in log order. */
  function Announced(events: seq<Event>): seq<(nat, nat)> {
    if events == [] then []
    else
      var n := |events| - 1;
      Announced(events[..n]) + if events[n].NewCommitment? then [(events[n].commitment, events[n].index)] else []
  }

  function LeafPairs(leaves: seq<nat>): (r: seq<(nat, nat)>)
    ensures |r| == |leaves| && forall i :: 0 <= i < |r| ==> r[i] == (leaves[i], i)
  {
    seq(|leaves|, i requires 0 <= i < |leaves| => (leaves[i], i))
  }

  predicate PayingInserter(f: Frame) {
    Paying(f) && f.phase.indices.Some?
  }

  /** What a suspended call has inserted and not yet announced. */
  function Due(f: Frame): seq<(nat, nat)> {
    if PayingInserter(f) then OutputPairs(f.call.proof, f.phase.indices) else []
  }

  function OutputPairs(p: Proof, indices: Option<(nat, nat)>): seq<(nat, nat)> {
    if indices.None? then [] else [(p.outputCommitment0, indices.value.0), (p.outputCommitment1, indices.value.1)]
  }

  /** The same for all suspended calls, in the order in which they will return. */
  function DueFromTop(stack: seq<Frame>): seq<(nat, nat)> {
    if stack == [] then []
    else Due(stack[|stack| - 1]) + DueFromTop(stack[..|stack| - 1])
  }

  /** The announcements of the log once every suspended call has returned. */
  function Eventual(s: State, stack: seq<Frame>): seq<(nat, nat)> {
    Announced(s.events) + DueFromTop(stack)
  }

  lemma {:induction false} DueFromTopOf(stack: seq<Frame>, f: Frame)
    ensures DueFromTop(stack + [f]) == Due(f) + DueFromTop(stack)
  {
    assert (stack + [f])[..|stack|] == stack;
  }

  lemma {:induction false} NothingDue(stack: seq<Frame>)
    ensures DueFromTop(stack) == [] <==> forall j :: 0 <= j < |stack| ==> !PayingInserter(stack[j])
  {
    if stack != [] {
      var n := |stack| - 1;
      NothingDue(stack[..n]);
      assert stack == stack[..n] + [stack[n]];
    }
  }

  lemma {:induction false} AnnouncedConcat(a: seq<Event>, b: seq<Event>)
    ensures Announced(a + b) == Announced(a) + Announced(b)
  {
    if b == [] {
      assert a + b == a;
    } else {
      var n := |b| - 1;
      assert (a + b)[..|a + b| - 1] == a + b[..n];
      AnnouncedConcat(a, b[..n]);
    }
  }

  lemma {:induction false} AnnouncedNone(events: seq<Event>)
    requires forall i :: 0 <= i < |events| ==> !events[i].NewCommitment?
    ensures Announced(events) == []
  {
    if events != [] {
      AnnouncedNone(events[..|events| - 1]);
    }
  }

  lemma AnnouncedByAnnouncement(p: Proof, ext: ExtData, payout: Option<Payout>, indices: Option<(nat, nat)>)
    ensures Announced(Announcement(p, ext, payout, indices)) == OutputPairs(p, indices)
  {
    if indices.None? {
      AnnouncedNone(ExitEvents(p, ext));
    } else {
      var first := [NewCommitment(p.outputCommitment0, indices.value.0, ext.encryptedOutput0)];
      var second := [NewCommitment(p.outputCommitment1, indices.value.1, ext.encryptedOutput1)];
      var closing := SettlementEvents(p, ext, indices.value, if payout.Some? then Some(ext.recipient) else None);
      assert Announcement(p, ext, payout, indices) == first + second + closing;
      AnnouncedConcat(first + second, closing);
      AnnouncedConcat(first, second);
      AnnouncedNone(closing);
    }
  }

  // ---------- Which insertions overlap

  /** Whether a kept insertion happened above a paying inserter, and what that was when each call began. */
  datatype Watch = Watch(overlapped: bool, saved: seq<bool>)

  /** The top frame has just inserted its outputs, and a call below it is paying out and inserting. */
  predicate InsertsAbove(m: Machine, s: State)
    requires m.stack != []
  {
    |s.leaves| > |m.state.leaves| && exists j :: 0 <= j < |m.stack| - 1 && PayingInserter(m.stack[j])
  }

  ghost function WatchMove(host: Host, cfg: Config, m: Machine, w: Watch, move: Move): (w': Watch)
    requires |w.saved| == |m.stack|
    ensures |w'.saved| == |Apply(host, cfg, m, move).stack|
  {
    match move
    case Enter(call, insertOutputs) =>
      if Begin(host, cfg, m.state, call, insertOutputs).Waiting? then w.(saved := w.saved + [w.overlapped]) else w
    case LedgerMoves(_) => w
    case _ =>
      if m.stack == [] then w else WatchProgress(m, w, Resume(host, cfg, m.state, m.stack[|m.stack| - 1], move))
  }

  function WatchProgress(m: Machine, w: Watch, r: Progress): (w': Watch)
    requires |w.saved| == |m.stack| > 0
    ensures |w'.saved| == |Proceed(m, r).stack|
  {
    var n := |m.stack| - 1;
    match r
    case Failed => Watch(w.saved[n], w.saved[..n])
    case Done(s) => Watch(w.overlapped || InsertsAbove(m, s), w.saved[..n])
    case Waiting(s, _) => w.(overlapped := w.overlapped || InsertsAbove(m, s))
  }

  ghost function WatchMoves(host: Host, cfg: Config, start: State, moves: seq<Move>): (w: Watch)
    ensures |w.saved| == |AfterMoves(host, cfg, Machine(start, []), moves).stack|
  {
    if moves == [] then Watch(false, [])
    else
      var n := |moves| - 1;
      WatchMove(host, cfg, AfterMoves(host, cfg, Machine(start, []), moves[..n]),
                WatchMoves(host, cfg, start, moves[..n]), moves[n])
  }

  // ---------- The invariant

  /** These announcements list every leaf once; and in order exactly when nothing overlapped. */
  ghost predicate Lists(pairs: seq<(nat, nat)>, leaves: seq<nat>, overlapped: bool) {
    && multiset(pairs) == multiset(LeafPairs(leaves))
    && (overlapped <==> pairs != LeafPairs(leaves))
  }

  ghost predicate Accounted(s: State, stack: seq<Frame>, overlapped: bool) {
    Lists(Eventual(s, stack), s.leaves, overlapped)
  }

  ghost predicate MachineAccounted(m: Machine, w: Watch)
    requires |w.saved| == |m.stack|
  {
    && Accounted(m.state, m.stack, w.overlapped)
    && forall k :: 0 <= k < |m.stack| ==> Accounted(m.stack[k].saved, m.stack[..k], w.saved[k])
  }

  lemma PairsOfTwoMore(leaves: seq<nat>, c0: nat, c1: nat)
    ensures LeafPairs(leaves + [c0, c1]) == LeafPairs(leaves) + [(c0, |leaves|), (c1, |leaves| + 1)]
  {
  }

  lemma SamePairs<T>(a: seq<T>, middle: seq<T>, b: seq<T>, all: seq<T>)
    requires multiset(a + b) == multiset(all)
    ensures multiset(a + (middle + b)) == multiset(all + middle)
  {
    assert multiset(a + (middle + b)) == multiset(a) + multiset(middle) + multiset(b);
    assert multiset(a + b) == multiset(a) + multiset(b);
  }

  /** Two more leaves, announced before what is still due: in order only if nothing is. */
  lemma InsertionInTheLog(announced: seq<(nat, nat)>, due: seq<(nat, nat)>, leaves: seq<nat>, c0: nat, c1: nat, overlapped: bool)
    requires Lists(announced + due, leaves, overlapped)
    ensures Lists(announced + ([(c0, |leaves|), (c1, |leaves| + 1)] + due), leaves + [c0, c1], overlapped || due != [])
  {
    var pairs, all := [(c0, |leaves|), (c1, |leaves| + 1)], LeafPairs(leaves);
    PairsOfTwoMore(leaves, c0, c1);
    SamePairs(announced, pairs, due, all);
    if due == [] {
      assert announced + due == announced && announced + (pairs + due) == announced + pairs;
      SameFront(announced, all, pairs);
    } else {
      LastIsDue(announced, due, leaves);
      var log := announced + (pairs + due);
      assert log[|log| - 1] == due[|due| - 1];
      assert (all + pairs)[|all| + 1] == pairs[1];
    }
  }

  lemma SameFront<T>(a: seq<T>, b: seq<T>, end: seq<T>)
    ensures a + end == b + end <==> a == b
  {
    if a + end == b + end {
      assert |a| == |b|;
      assert a == (a + end)[..|a|] && b == (b + end)[..|b|];
    }
  }

  lemma LastIsDue(announced: seq<(nat, nat)>, due: seq<(nat, nat)>, leaves: seq<nat>)
    requires multiset(announced + due) == multiset(LeafPairs(leaves)) && due != []
    ensures due[|due| - 1].1 < |leaves|
  {
    var all, last := announced + due, due[|due| - 1];
    assert all[|all| - 1] == last;
    assert last in multiset(all);
    assert last in multiset(LeafPairs(leaves));
    var i :| 0 <= i < |leaves| && LeafPairs(leaves)[i] == last;
  }

  /** What a resumed call leaves: the same account without it, or with it in its new phase. */
  ghost predicate AccountedProgress(m: Machine, r: Progress, overlapped: bool)
    requires m.stack != []
  {
    var n := |m.stack| - 1;
    match r
    case Failed => true
    case Waiting(s, phase) => Accounted(s, m.stack[..n] + [m.stack[n].(phase := phase)], overlapped || InsertsAbove(m, s))
    case Done(s) => Accounted(s, m.stack[..n], overlapped || InsertsAbove(m, s))
  }

  /** The announcements once the outputs of a call with proof `p` are due before everything below it. */
  function EventualWith(s: State, below: seq<Frame>, p: Proof, indices: Option<(nat, nat)>): seq<(nat, nat)> {
    Announced(s.events) + (OutputPairs(p, indices) + DueFromTop(below))
  }

  /** Announcing moves what the top call owes the log from due to announced. */
  lemma CloseKeepsEventual(s: State, below: seq<Frame>, f: Frame, payout: Option<Payout>, indices: Option<(nat, nat)>)
    requires Close(s, f, payout, indices).Done?
    ensures var s' := Close(s, f, payout, indices).state;
            s'.leaves == s.leaves && Eventual(s', below) == EventualWith(s, below, f.call.proof, indices)
  {
    hide Announced, DueFromTop, Announcement;
    var p, ext := f.call.proof, f.call.ext;
    AnnouncedConcat(s.events, Announcement(p, ext, payout, indices));
    AnnouncedByAnnouncement(p, ext, payout, indices);
  }

  lemma PayingKeepsEventual(s: State, below: seq<Frame>, f: Frame, phase: Phase)
    requires phase.PayingRecipient? || phase.PayingFee?
    ensures Eventual(s, below + [f.(phase := phase)]) == EventualWith(s, below, f.call.proof, phase.indices)
  {
    hide Announced, DueFromTop;
    DueFromTopOf(below, f.(phase := phase));
  }

  /** The progress of a call that has made its writes: it only changes hands what it owes the log. */
  ghost predicate KeepsEventual(s: State, below: seq<Frame>, f: Frame, indices: Option<(nat, nat)>, r: Progress) {
    var eventual := EventualWith(s, below, f.call.proof, indices);
    match r
    case Failed => true
    case Waiting(s', phase) => s' == s && Eventual(s, below + [f.(phase := phase)]) == eventual
    case Done(s') => s'.leaves == s.leaves && Eventual(s', below) == eventual
  }

  lemma PayingIsAccounted(s: State, below: seq<Frame>, f: Frame, payout: Option<Payout>, indices: Option<(nat, nat)>)
    ensures KeepsEventual(s, below, f, indices, Close(s, f, payout, indices))
    ensures KeepsEventual(s, below, f, indices, ToFee(s, f, payout, indices))
    ensures KeepsEventual(s, below, f, indices, ToRecipient(s, f, payout, indices))
  {
    hide Announced, DueFromTop, Announcement, Eventual, EventualWith, Announce;
    if Close(s, f, payout, indices).Done? {
      CloseKeepsEventual(s, below, f, payout, indices);
    }
    if payout.Some? {
      PayingKeepsEventual(s, below, f, PayingRecipient(payout.value, indices));
      PayingKeepsEventual(s, below, f, PayingFee(payout.value, indices));
    }
  }

  lemma CommitIsAccounted(cfg: Config, m: Machine, overlapped: bool)
    requires m.stack != [] && Accounted(m.state, m.stack, overlapped)
    requires var f := m.stack[|m.stack| - 1];
             f.phase.Verifying? && Commit(cfg, m.state, f.call.proof, f.call.ext, f.insertOutputs).Ok?
    ensures var f := m.stack[|m.stack| - 1];
            var c := Commit(cfg, m.state, f.call.proof, f.call.ext, f.insertOutputs).value;
            Lists(EventualWith(c.state, m.stack[..|m.stack| - 1], f.call.proof, c.indices), c.state.leaves,
                  overlapped || InsertsAbove(m, c.state))
  {
    hide Announced, DueFromTop, Lists;
    var n := |m.stack| - 1;
    var f, below, s := m.stack[n], m.stack[..n], m.state;
    var p := f.call.proof;
    var c := Commit(cfg, s, p, f.call.ext, f.insertOutputs).value;
    NothingDueFrom(m);
    CommitAnnouncesNothing(cfg, s, p, f.call.ext, f.insertOutputs);
    if f.insertOutputs {
      InsertionInTheLog(Announced(s.events), DueFromTop(below), s.leaves, p.outputCommitment0, p.outputCommitment1, overlapped);
    } else {
      assert OutputPairs(p, c.indices) + DueFromTop(below) == DueFromTop(below);
    }
  }

  /** A call that has not committed owes the log nothing. */
  lemma NothingDueFrom(m: Machine)
    requires m.stack != [] && !Paying(m.stack[|m.stack| - 1])
    ensures var below := m.stack[..|m.stack| - 1];
            && Eventual(m.state, m.stack) == Announced(m.state.events) + DueFromTop(below)
            && (DueFromTop(below) != [] <==> exists j :: 0 <= j < |m.stack| - 1 && PayingInserter(m.stack[j]))
  {
    hide Announced, DueFromTop;
    var n := |m.stack| - 1;
    assert m.stack == m.stack[..n] + [m.stack[n]] && Due(m.stack[n]) == [];
    DueFromTopOf(m.stack[..n], m.stack[n]);
    NothingDue(m.stack[..n]);
  }

  lemma CommitAnnouncesNothing(cfg: Config, s: State, p: Proof, ext: ExtData, insertOutputs: bool)
    requires Commit(cfg, s, p, ext, insertOutputs).Ok?
    ensures Announced(Commit(cfg, s, p, ext, insertOutputs).value.state.events) == Announced(s.events)
  {
    AnnouncedConcat(s.events, NullifierEvents(p.inputNullifiers));
    AnnouncedNone(NullifierEvents(p.inputNullifiers));
  }

  lemma VerdictIsAccounted(cfg: Config, m: Machine, verdict: Result<bool, Groth16Error>, overlapped: bool)
    requires m.stack != [] && Accounted(m.state, m.stack, overlapped) && m.stack[|m.stack| - 1].phase.Verifying?
    ensures AccountedProgress(m, GotVerdict(cfg, m.state, m.stack[|m.stack| - 1], verdict), overlapped)
  {
    hide Commit, Lists, Eventual, EventualWith, ToRecipient;
    var n := |m.stack| - 1;
    var f := m.stack[n];
    if verdict == Ok(true) && Commit(cfg, m.state, f.call.proof, f.call.ext, f.insertOutputs).Ok? {
      var c := Commit(cfg, m.state, f.call.proof, f.call.ext, f.insertOutputs).value;
      CommitIsAccounted(cfg, m, overlapped);
      PayingIsAccounted(c.state, m.stack[..n], f, c.payout, c.indices);
    }
  }

  /** A token's answer to a paying call. */
  lemma PaidIsAccounted(host: Host, cfg: Config, m: Machine, balances: map<Address, nat>, overlapped: bool)
    requires m.stack != [] && Accounted(m.state, m.stack, overlapped) && Paying(m.stack[|m.stack| - 1])
    ensures AccountedProgress(m, Resume(host, cfg, m.state, m.stack[|m.stack| - 1], TokenReturns(balances)), overlapped)
  {
    hide Lists, Announced, DueFromTop, ToFee, Close;
    var n := |m.stack| - 1;
    var f, below := m.stack[n], m.stack[..n];
    var s' := m.state.(balances := balances);
    PayingKeepsEventual(m.state, below, f, f.phase);
    assert m.stack == below + [f] && f.(phase := f.phase) == f;
    PayingIsAccounted(s', below, f, Some(f.phase.payout), f.phase.indices);
  }

  lemma ResumeIsAccounted(host: Host, cfg: Config, m: Machine, move: Move, overlapped: bool)
    requires m.stack != [] && Accounted(m.state, m.stack, overlapped)
    ensures AccountedProgress(m, Resume(host, cfg, m.state, m.stack[|m.stack| - 1], move), overlapped)
  {
    hide Lists, Announced, DueFromTop, ToFee, Close, CheckStatement, GotVerdict;
    var n := |m.stack| - 1;
    var f := m.stack[n];
    if move.TokenReturns? && Paying(f) {
      PaidIsAccounted(host, cfg, m, move.balances, overlapped);
    } else if move.VerdictIs? && f.phase.Verifying? {
      VerdictIsAccounted(cfg, m, move.verdict, overlapped);
    } else {
      var r := Resume(host, cfg, m.state, f, move);
      if r.Waiting? {
        NothingDueFrom(m);
        NothingDueFrom(Machine(m.state, m.stack[..n] + [f.(phase := r.phase)]));
        assert (m.stack[..n] + [f.(phase := r.phase)])[..n] == m.stack[..n];
      }
    }
  }

  lemma {:induction false} InterleavingsAreAccounted(host: Host, cfg: Config, start: State, moves: seq<Move>)
    requires Fresh(start)
    ensures MachineAccounted(AfterMoves(host, cfg, Machine(start, []), moves), WatchMoves(host, cfg, start, moves))
  {
    if moves == [] {
      assert Eventual(start, []) == [] == LeafPairs(start.leaves);
    } else {
      var n := |moves| - 1;
      InterleavingsAreAccounted(host, cfg, start, moves[..n]);
      MoveIsAccounted(host, cfg, AfterMoves(host, cfg, Machine(start, []), moves[..n]),
                      WatchMoves(host, cfg, start, moves[..n]), moves[n]);
    }
  }

  lemma MoveIsAccounted(host: Host, cfg: Config, m: Machine, w: Watch, move: Move)
    requires |w.saved| == |m.stack| && MachineAccounted(m, w)
    ensures MachineAccounted(Apply(host, cfg, m, move), WatchMove(host, cfg, m, w, move))
  {
    hide Resume, Lists, Announced, DueFromTop, Begin;
    match move
    case Enter(call, insertOutputs) => EnterIsAccounted(host, cfg, m, w, call, insertOutputs);
    case LedgerMoves(_) =>
    case _ =>
      if m.stack != [] {
        ResumeIsAccounted(host, cfg, m, move, w.overlapped);
        ProceedIsAccounted(m, w, Resume(host, cfg, m.state, m.stack[|m.stack| - 1], move));
      }
  }

  lemma ProceedIsAccounted(m: Machine, w: Watch, r: Progress)
    requires |w.saved| == |m.stack| > 0 && MachineAccounted(m, w) && AccountedProgress(m, r, w.overlapped)
    ensures MachineAccounted(Proceed(m, r), WatchProgress(m, w, r))
  {
    hide Accounted, InsertsAbove;
    var m', w' := Proceed(m, r), WatchProgress(m, w, r);
    var n := |m.stack| - 1;
    assert Accounted(m.stack[n].saved, m.stack[..n], w.saved[n]);
    forall k | 0 <= k < |m'.stack|
      ensures Accounted(m'.stack[k].saved, m'.stack[..k], w'.saved[k])
    {
      assert m'.stack[..k] == m.stack[..k] && m'.stack[k].saved == m.stack[k].saved;
    }
  }

  lemma EnterIsAccounted(host: Host, cfg: Config, m: Machine, w: Watch, call: Call, insertOutputs: bool)
    requires |w.saved| == |m.stack| && MachineAccounted(m, w)
    ensures MachineAccounted(Apply(host, cfg, m, Enter(call, insertOutputs)), WatchMove(host, cfg, m, w, Enter(call, insertOutputs)))
  {
    hide CheckStatement, Lists, Announced, DueFromTop;
    var r := Begin(host, cfg, m.state, call, insertOutputs);
    if r.Waiting? {
      var frame := Frame(call, insertOutputs, r.phase, m.state);
      var m' := Machine(m.state, m.stack + [frame]);
      assert m'.stack[..|m.stack|] == m.stack;
      NothingDueFrom(m');
      forall k | 0 <= k < |m'.stack|
        ensures Accounted(m'.stack[k].saved, m'.stack[..k], (w.saved + [w.overlapped])[k])
      {
        assert k < |m.stack| ==> m'.stack[..k] == m.stack[..k];
      }
    }
  }

  // ---------- What it means

  /** In every interleaving each leaf is announced once at its position, or due from a call still paying. */
  lemma {:induction false} AnnouncedOrDue(host: Host, cfg: Config, start: State, moves: seq<Move>)
    requires Fresh(start)
    ensures var m := AfterMoves(host, cfg, Machine(start, []), moves);
            multiset(Announced(m.state.events)) + multiset(DueFromTop(m.stack)) == multiset(LeafPairs(m.state.leaves))
  {
    InterleavingsAreAccounted(host, cfg, start, moves);
  }

  /** The log read by position. */
  function ByPosition(pairs: seq<(nat, nat)>): map<nat, nat> {
    if pairs == [] then map[]
    else
      var n := |pairs| - 1;
      ByPosition(pairs[..n])[pairs[n].1 := pairs[n].0]
  }

  lemma {:induction false} ByPositionHolds(pairs: seq<(nat, nat)>, leaves: seq<nat>)
    requires forall x :: x in pairs ==> x in LeafPairs(leaves)
    ensures forall i :: i in ByPosition(pairs) <==> 0 <= i < |leaves| && (leaves[i], i) in pairs
    ensures forall i :: i in ByPosition(pairs) ==> ByPosition(pairs)[i] == leaves[i]
  {
    if pairs != [] {
      var n := |pairs| - 1;
      ByPositionHolds(pairs[..n], leaves);
      assert pairs == pairs[..n] + [pairs[n]];
      assert pairs[n] in LeafPairs(leaves);
    }
  }

  /** When no call is suspended, the log read by position is the leaves. */
  lemma {:induction false} LogByPositionIsTheLeaves(host: Host, cfg: Config, start: State, moves: seq<Move>)
    requires Fresh(start) && AfterMoves(host, cfg, Machine(start, []), moves).stack == []
    ensures var s := AfterMoves(host, cfg, Machine(start, []), moves).state;
            ByPosition(Announced(s.events)) == map i | 0 <= i < |s.leaves| :: s.leaves[i]
  {
    var s := AfterMoves(host, cfg, Machine(start, []), moves).state;
    AnnouncedOrDue(host, cfg, start, moves);
    ByPositionOfAll(Announced(s.events), s.leaves);
  }

  lemma {:induction false} ByPositionOfAll(pairs: seq<(nat, nat)>, leaves: seq<nat>)
    requires multiset(pairs) == multiset(LeafPairs(leaves))
    ensures ByPosition(pairs) == map i | 0 <= i < |leaves| :: leaves[i]
  {
    var all := LeafPairs(leaves);
    forall x
      ensures x in pairs <==> x in all
    {
      assert x in multiset(pairs) <==> x in multiset(all);
    }
    ByPositionHolds(pairs, leaves);
    forall i | 0 <= i < |leaves|
      ensures (leaves[i], i) in pairs
    {
      assert all[i] == (leaves[i], i);
    }
  }

  /** An indexer that reads in order sees the announcements as they come. */
  lemma {:induction false} ReplayIsAnnounced(events: seq<Event>)
    ensures var r, a := Replay(events), Announced(events);
            && |r.leaves| == |a|
            && (forall i :: 0 <= i < |a| ==> r.leaves[i] == a[i].0)
            && (r.consistent <==> forall i :: 0 <= i < |a| ==> a[i].1 == i)
            && r.nullifiers == Elements(NullifierLog(events))
  {
    if events != [] {
      var n := |events| - 1;
      ReplayIsAnnounced(events[..n]);
      var a := Announced(events[..n]);
      if events[n].NewNullifier? {
        ElementsOfConcat(NullifierLog(events[..n]), [events[n].nullifier]);
      } else if events[n].NewCommitment? {
        assert Announced(events)[|a|] == (events[n].commitment, events[n].index);
        assert forall i :: 0 <= i < |a| ==> Announced(events)[i] == a[i];
      }
    }
  }

  /**
   Read in order, the log of an interleaving replays to the state it ends in
   exactly when no kept insertion happened above a paying inserter.
   */
  lemma {:induction false} InOrderUnlessOverlapped(host: Host, cfg: Config, start: State, moves: seq<Move>)
    requires Fresh(start) && AfterMoves(host, cfg, Machine(start, []), moves).stack == []
    ensures LogMatches(AfterMoves(host, cfg, Machine(start, []), moves).state)
            <==> !WatchMoves(host, cfg, start, moves).overlapped
  {
    var s := AfterMoves(host, cfg, Machine(start, []), moves).state;
    InterleavingsAreAccounted(host, cfg, start, moves);
    InterleavingsAreSafe(host, cfg, start, moves);
    ReplayIsAnnounced(s.events);
    var r, a, all := Replay(s.events), Announced(s.events), LeafPairs(s.leaves);
    assert Eventual(s, []) == a;
    assert |a| == |multiset(a)| && |all| == |multiset(all)|;
    if LogMatches(s) {
      assert forall i :: 0 <= i < |a| ==> a[i] == all[i];
    }
    if a == all {
      assert r.leaves == s.leaves;
    }
  }

  // ---------- An interleaving whose log is out of order

  const DEMO_HOST: Host := Host((a: nat, b: nat) => 1, 1, (ext: ExtData) => 0)
  const DEMO_CONFIG: Config := Config(0, 0, 1, 0)

  /** A call of `transact` that moves `extAmount` and writes these outputs. */
  function DemoCall(nullifier: nat, c0: nat, c1: nat, extAmount: I256, publicAmount: nat): Call {
    Call(Proof(Groth16Proof([0], [0], [0]), 1, [nullifier], c0, c1, publicAmount, 0, 5),
         ExtData(2, extAmount, [], []), 3, true, Answers(5, (proof: Groth16Proof, inputs: seq<nat>) => Ok(true)))
  }

  const PAYING_CALL: Call := DemoCall(10, 100, 101, -1, MODULUS - 1)
  const NESTED_CALL: Call := DemoCall(11, 102, 103, 0, 0)

  /** A withdrawal, and a transfer that runs to its end inside the withdrawal's payout. */
  const NESTED_MOVES: seq<Move> :=
    [Enter(PAYING_CALL, true), RootIs(5), VerdictIs(Ok(true)),
     Enter(NESTED_CALL, true), RootIs(5), VerdictIs(Ok(true)),
     TokenReturns(map[])]

  lemma DemoIsChecked(s: State, nullifier: nat, c0: nat, c1: nat, extAmount: I256, publicAmount: nat)
    requires s.levels == 2 && nullifier < 1000 && c0 < 1000 && c1 < 1000 && nullifier !in s.nullifiers
    requires PublicAmount(extAmount) == Ok(publicAmount)
    ensures var call := DemoCall(nullifier, c0, c1, extAmount, publicAmount);
            CheckStatement(DEMO_HOST, s, call.proof, call.ext).Ok?
  {
    var h := DEMO_HOST.h;
    assert Node(h, 1, s.leaves[..0], 2, 0) == 1;
    assert RootAfter(h, 1, 2, s.leaves, 0) == 1;
    RootStaysKnown(h, s.leaves);
    assert KnownRoot(DEMO_HOST, s, 1);
  }

  lemma RootStaysKnown(h: Hash, leaves: seq<nat>)
    requires forall k: nat :: RootAfter(h, 1, 2, leaves, k) == if 2 * k <= |leaves| then 1 else 0
    ensures RecentRoot(h, 1, 2, leaves, 1)
  {
    var n := |leaves| / 2;
    assert InWindow(n, n) && RootAfter(h, 1, 2, leaves, n) == 1;
  }

  lemma {:induction false} AfterMovesConcat(host: Host, cfg: Config, m: Machine, a: seq<Move>, b: seq<Move>)
    ensures AfterMoves(host, cfg, m, a + b) == AfterMoves(host, cfg, AfterMoves(host, cfg, m, a), b)
  {
    if b == [] {
      assert a + b == a;
    } else {
      var n := |b| - 1;
      assert (a + b)[..|a + b| - 1] == a + b[..n];
      AfterMovesConcat(host, cfg, m, a, b[..n]);
    }
  }

  /** A transfer or withdrawal that is answered honestly gets as far as its writes. */
  lemma {:induction false} UpToTheVerdict(host: Host, cfg: Config, m: Machine, call: Call)
    requires CheckStatement(host, m.state, call.proof, call.ext).Ok? && call.authorized && call.ext.extAmount <= 0
    requires !call.proof.proof.IsEmpty()
    ensures var f := Frame(call, true, Verifying, m.state);
            AfterMoves(host, cfg, m, [Enter(call, true), RootIs(call.proof.aspMembershipRoot), VerdictIs(Ok(true))])
            == Proceed(Machine(m.state, m.stack + [f]), GotVerdict(cfg, m.state, f, Ok(true)))
  {
    hide CheckStatement, Commit, GotVerdict;
    var enter, root, verdict := Enter(call, true), RootIs(call.proof.aspMembershipRoot), VerdictIs(Ok(true));
    var f := Frame(call, true, Verifying, m.state);
    var m1 := Machine(m.state, m.stack + [f.(phase := AskingRoot)]);
    var m2 := Machine(m.state, m.stack + [f]);
    assert Apply(host, cfg, m, enter) == m1;
    assert m1.stack[..|m.stack|] == m.stack;
    assert Apply(host, cfg, m1, root) == m2;
    assert Apply(host, cfg, m2, verdict) == Proceed(m2, GotVerdict(cfg, m.state, f, Ok(true)));
    assert AfterMoves(host, cfg, m, []) == m;
    assert [enter][..0] == [] && [enter, root][..1] == [enter] && [enter, root, verdict][..2] == [enter, root];
    assert AfterMoves(host, cfg, m, [enter]) == m1;
    assert AfterMoves(host, cfg, m, [enter, root]) == m2;
  }

  lemma PayingCommit() returns (c: Committed)
    ensures Commit(DEMO_CONFIG, Initial(2), PAYING_CALL.proof, PAYING_CALL.ext, true) == Ok(c)
    ensures c.state.levels == 2 && c.state.leaves == [100, 101] && c.state.commitments == {100, 101} && c.state.nullifiers == {10}
    ensures Announced(c.state.events) == []
    ensures c.payout == Some(Payout(1, 0)) && c.indices == Some((0, 1))
  {
    var start := Initial(2);
    assert Pow2(2) == 4;
    assert PlanPayout(DEMO_CONFIG, PAYING_CALL.ext) == Ok(Some(Payout(1, 0)));
    assert !OutputsUsed(start, PAYING_CALL.proof) && Unspent(start.nullifiers, PAYING_CALL.proof.inputNullifiers);
    c := Commit(DEMO_CONFIG, start, PAYING_CALL.proof, PAYING_CALL.ext, true).value;
    CommitAnnouncesNothing(DEMO_CONFIG, start, PAYING_CALL.proof, PAYING_CALL.ext, true);
    assert Elements([10]) == {10};
  }

  /** The state while the withdrawal pays: its outputs are in, unannounced. */
  lemma PayingState() returns (m: Machine)
    ensures m == AfterMoves(DEMO_HOST, DEMO_CONFIG, Machine(Initial(2), []), NESTED_MOVES[..3])
    ensures m.state.levels == 2 && m.state.leaves == [100, 101] && m.state.commitments == {100, 101} && m.state.nullifiers == {10}
    ensures Announced(m.state.events) == []
    ensures m.stack == [Frame(PAYING_CALL, true, PayingRecipient(Payout(1, 0), Some((0, 1))), Initial(2))]
  {
    hide CheckStatement, Commit, AfterMoves, Announced;
    var start := Initial(2);
    var f := Frame(PAYING_CALL, true, Verifying, start);
    DemoIsChecked(start, 10, 100, 101, -1, MODULUS - 1);
    UpToTheVerdict(DEMO_HOST, DEMO_CONFIG, Machine(start, []), PAYING_CALL);
    assert NESTED_MOVES[..3] == [Enter(PAYING_CALL, true), RootIs(5), VerdictIs(Ok(true))];
    var c := PayingCommit();
    m := AfterMoves(DEMO_HOST, DEMO_CONFIG, Machine(start, []), NESTED_MOVES[..3]);
    assert [] + [f] == [f];
    assert GotVerdict(DEMO_CONFIG, start, f, Ok(true)) == Waiting(c.state, PayingRecipient(Payout(1, 0), Some((0, 1))));
  }

  /** The nested transfer announces its outputs while the withdrawal is still paying. */
  lemma NestedState(m: Machine) returns (m': Machine)
    requires m.state.levels == 2 && m.state.leaves == [100, 101] && m.state.commitments == {100, 101} && m.state.nullifiers == {10}
    requires Announced(m.state.events) == []
    ensures m' == AfterMoves(DEMO_HOST, DEMO_CONFIG, m, NESTED_MOVES[3..6])
    ensures m'.stack == m.stack && m'.state.leaves == [100, 101, 102, 103]
    ensures Announced(m'.state.events) == [(102, 2), (103, 3)]
  {
    var s := m.state;
    var f := Frame(NESTED_CALL, true, Verifying, s);
    DemoIsChecked(s, 11, 102, 103, 0, 0);
    UpToTheVerdict(DEMO_HOST, DEMO_CONFIG, m, NESTED_CALL);
    assert NESTED_MOVES[3..6] == [Enter(NESTED_CALL, true), RootIs(5), VerdictIs(Ok(true))];
    m' := AfterMoves(DEMO_HOST, DEMO_CONFIG, m, NESTED_MOVES[3..6]);
    assert (m.stack + [f])[..|m.stack|] == m.stack;
    assert Pow2(2) == 4;
    assert Commit(DEMO_CONFIG, s, NESTED_CALL.proof, NESTED_CALL.ext, true).Ok?;
    var c := Commit(DEMO_CONFIG, s, NESTED_CALL.proof, NESTED_CALL.ext, true).value;
    CommitAnnouncesNothing(DEMO_CONFIG, s, NESTED_CALL.proof, NESTED_CALL.ext, true);
    CommitWrites(DEMO_CONFIG, s, NESTED_CALL.proof, NESTED_CALL.ext, true);
    AnnouncedConcat(c.state.events, Announcement(NESTED_CALL.proof, NESTED_CALL.ext, c.payout, c.indices));
    AnnouncedByAnnouncement(NESTED_CALL.proof, NESTED_CALL.ext, c.payout, c.indices);
  }

  /** The log of these moves, read in order, does not give the leaves back. */
  lemma NestedInsertionBreaksTheOrder()
    ensures var m := AfterMoves(DEMO_HOST, DEMO_CONFIG, Machine(Initial(2), []), NESTED_MOVES);
            && m.stack == [] && m.state.leaves == [100, 101, 102, 103]
            && Announced(m.state.events) == [(102, 2), (103, 3), (100, 0), (101, 1)]
            && !LogMatches(m.state)
  {
    var start := Machine(Initial(2), []);
    var m3 := PayingState();
    var m6 := NestedState(m3);
    assert NESTED_MOVES[..6] == NESTED_MOVES[..3] + NESTED_MOVES[3..6];
    AfterMovesConcat(DEMO_HOST, DEMO_CONFIG, start, NESTED_MOVES[..3], NESTED_MOVES[3..6]);
    var m7 := AfterMoves(DEMO_HOST, DEMO_CONFIG, start, NESTED_MOVES);
    assert m7 == Apply(DEMO_HOST, DEMO_CONFIG, m6, NESTED_MOVES[6]);
    var s' := m6.state.(balances := map[]);
    var said := Announcement(PAYING_CALL.proof, PAYING_CALL.ext, Some(Payout(1, 0)), Some((0, 1)));
    assert m7.state == s'.(events := s'.events + said);
    AnnouncedConcat(s'.events, said);
    AnnouncedByAnnouncement(PAYING_CALL.proof, PAYING_CALL.ext, Some(Payout(1, 0)), Some((0, 1)));
    ReplayIsAnnounced(m7.state.events);
    assert Announced(m7.state.events)[0].1 == 2;
  }
}
