// Concurrent requests never get stuck: whatever has happened so far, all of
// them can still be finished, none of them aborted
// (services/ledger-core/internal/adapters/postgres/store.go:657-1119).
module Progresses {
  import opened Wrappers
  import opened Domain
  import opened LedgerTables
  import opened LedgerSteps
  import opened LedgerInvariant
  import opened Concurrent

  // The pieces a request may still have before it.
  function Left(phase: Phase): nat {
    match phase
    case Idle => 4
    case Missed => 3
    case Checked => 2
    case OriginalLocked(_, _) => 2
    case FundsLocked(_) => 2
    case Violated => 1
    case Finished(_) => 0
  }

  function Work(phases: seq<Phase>): nat {
    if phases == [] then 0 else Work(phases[..|phases| - 1]) + Left(phases[|phases| - 1])
  }

  lemma {:induction false} WorkUpdate(phases: seq<Phase>, p: nat, phase: Phase)
    requires p < |phases|
    ensures Work(phases[p := phase]) == Work(phases) - Left(phases[p]) + Left(phase)
  {
    var last := |phases| - 1;
    if p == last {
      assert phases[p := phase][..last] == phases[..last];
    } else {
      WorkUpdate(phases[..last], p, phase);
      assert phases[p := phase][..last] == phases[..last][p := phase];
    }
  }

  predicate AllFinished(s: System) {
    forall p :: 0 <= p < |s.phases| ==> s.phases[p].Finished?
  }

  lemma {:induction false} WorkLeft(phases: seq<Phase>, p: nat)
    requires p < |phases| && !phases[p].Finished?
    ensures Work(phases) > 0
  {
    if p < |phases| - 1 {
      WorkLeft(phases[..|phases| - 1], p);
    }
  }

  // ---- Who can go on ----------------------------------------------------------------------------

  predicate NoFunds(s: System) {
    forall q :: 0 <= q < |s.phases| ==> !s.phases[q].FundsLocked?
  }

  predicate NoOriginals(s: System) {
    forall q :: 0 <= q < |s.phases| ==> !s.phases[q].OriginalLocked?
  }

  // The phase request p is in belongs to a request of its kind.
  predicate Formed(s: System, p: nat)
    requires Shaped(s) && p < |s.phases|
  {
    var c := s.requests[p];
    match s.phases[p]
    case Idle => true
    case Missed => Keyed(c) || c.Reservation?
    case Checked => c.Create?
    case OriginalLocked(i, original) => c.ReverseOf? && i < |s.db.txs| && |c.ids| == |original.postings|
    case FundsLocked(_) => c.Reservation?
    case Violated => Keyed(c) || c.Reservation?
    case Finished(_) => true
  }

  lemma PhaseFormed(db: Db, c: Command, phase: Phase)
    requires PhaseOk(db, c, phase)
    ensures Formed(System(db, [c], [phase]), 0)
  {
  }

  lemma AllFormed(s: System, p: nat)
    requires SystemInv(s) && p < |s.phases|
    ensures Formed(s, p)
  {
    assert PhaseOk(s.db, s.requests[p], s.phases[p]);
    PhaseFormed(s.db, s.requests[p], s.phases[p]);
  }

  // A reservation adds to the row it has locked and to no other.
  ghost predicate OtherBalances(db: Db, after: Db, k: BalanceKey) {
    after.txs == db.txs && forall x :: x != k ==> Row(after.balances, x) == Row(db.balances, x)
  }

  lemma LockedHold(s: System, p: nat)
    requires Shaped(s) && p < |s.phases| && s.phases[p].FundsLocked? && Formed(s, p)
    ensures OtherBalances(s.db, Progress(s, p).0, FundsKey(s.requests[p]))
    ensures Left(Progress(s, p).1) < Left(s.phases[p])
  {
  }

  lemma FundsApart(s: System, p: nat, q: nat)
    requires SystemInv(s) && p < |s.phases| && q < |s.phases| && p != q
    requires s.phases[p].FundsLocked? && s.phases[q].FundsLocked?
    requires s.requests[p].Reservation? && s.requests[q].Reservation?
    ensures FundsKey(s.requests[p]) != FundsKey(s.requests[q])
  {
    assert HoldsFunds(s, p, FundsKey(s.requests[p])) && HoldsFunds(s, q, FundsKey(s.requests[q]));
  }

  lemma FundsUndisturbed(s: System, p: nat, k: BalanceKey, after: Db)
    requires Shaped(s) && OtherBalances(s.db, after, k)
    requires forall q :: 0 <= q < |s.phases| && q != p && s.phases[q].FundsLocked? && s.requests[q].Reservation? ==>
                           FundsKey(s.requests[q]) != k
    ensures MayWrite(s, p, after)
  {
  }

  lemma FundsGo(s: System, p: nat)
    requires SystemInv(s) && p < |s.phases| && s.phases[p].FundsLocked?
    ensures MayWrite(s, p, Progress(s, p).0) && Left(Progress(s, p).1) < Left(s.phases[p])
  {
    AllFormed(s, p);
    LockedHold(s, p);
    forall q | 0 <= q < |s.phases| && q != p && s.phases[q].FundsLocked? && s.requests[q].Reservation?
      ensures FundsKey(s.requests[q]) != FundsKey(s.requests[p])
    {
      FundsApart(s, p, q);
    }
    FundsUndisturbed(s, p, FundsKey(s.requests[p]), Progress(s, p).0);
  }

  // A reversal changes the original it has locked and no other.
  predicate OtherRows(db: Db, after: Db, i: nat) {
    |db.txs| <= |after.txs| && forall j :: 0 <= j < |db.txs| && j != i ==> after.txs[j] == db.txs[j]
  }

  lemma OthersUnwritten(db: Db, i: nat, original: Transaction, c: Command)
    requires c.ReverseOf? && i < |db.txs| && |c.ids| == |original.postings|
    ensures var (after, phase) := TxAttempt(db, ReverseInsert(db, i, original, c.key, c.reason, c.now, c.revId, c.ids));
            OtherRows(db, after, i) && (phase.Finished? || phase.Violated?)
  {
  }

  lemma LockedReversal(s: System, p: nat)
    requires Shaped(s) && p < |s.phases| && s.phases[p].OriginalLocked? && Formed(s, p)
    ensures OtherRows(s.db, Progress(s, p).0, s.phases[p].row)
    ensures Left(Progress(s, p).1) < Left(s.phases[p])
  {
    OthersUnwritten(s.db, s.phases[p].row, s.phases[p].original, s.requests[p]);
  }

  lemma OriginalsApart(s: System, p: nat, q: nat)
    requires SystemInv(s) && p < |s.phases| && q < |s.phases| && p != q
    requires s.phases[p].OriginalLocked? && s.phases[q].OriginalLocked?
    ensures s.phases[p].row != s.phases[q].row
  {
    assert HoldsOriginal(s, p, s.phases[p].row) && HoldsOriginal(s, q, s.phases[q].row);
  }

  lemma OriginalsUndisturbed(s: System, p: nat, i: nat, after: Db)
    requires Shaped(s) && NoFunds(s) && OtherRows(s.db, after, i)
    requires forall q :: 0 <= q < |s.phases| && q != p && s.phases[q].OriginalLocked? ==> s.phases[q].row != i
    ensures MayWrite(s, p, after)
  {
  }

  lemma OriginalGoes(s: System, p: nat)
    requires SystemInv(s) && p < |s.phases| && s.phases[p].OriginalLocked? && NoFunds(s)
    ensures MayWrite(s, p, Progress(s, p).0) && Left(Progress(s, p).1) < Left(s.phases[p])
  {
    AllFormed(s, p);
    LockedReversal(s, p);
    forall q | 0 <= q < |s.phases| && q != p && s.phases[q].OriginalLocked?
      ensures s.phases[q].row != s.phases[p].row
    {
      OriginalsApart(s, p, q);
    }
    OriginalsUndisturbed(s, p, s.phases[p].row, Progress(s, p).0);
  }

  // With no lock held nobody has to wait.
  lemma UnlockedGoes(s: System, p: nat)
    requires Shaped(s) && p < |s.phases| && !s.phases[p].Finished? && NoFunds(s) && NoOriginals(s) && Formed(s, p)
    ensures Left(Progress(s, p).1) < Left(s.phases[p])
  {
  }

  lemma AnyoneGoes(s: System, p: nat)
    requires SystemInv(s) && p < |s.phases| && !s.phases[p].Finished? && NoFunds(s) && NoOriginals(s)
    ensures MayWrite(s, p, Progress(s, p).0) && Left(Progress(s, p).1) < Left(s.phases[p])
  {
    AllFormed(s, p);
    UnlockedGoes(s, p);
  }

  // As long as somebody is unfinished, somebody can go on.
  lemma Unstuck(s: System) returns (p: nat)
    requires SystemInv(s) && !AllFinished(s)
    ensures p < |s.phases| && MayWrite(s, p, Progress(s, p).0) && Left(Progress(s, p).1) < Left(s.phases[p])
  {
    if !NoFunds(s) {
      p :| 0 <= p < |s.phases| && s.phases[p].FundsLocked?;
      FundsGo(s, p);
    } else if !NoOriginals(s) {
      p :| 0 <= p < |s.phases| && s.phases[p].OriginalLocked?;
      OriginalGoes(s, p);
    } else {
      p :| 0 <= p < |s.phases| && !s.phases[p].Finished?;
      AnyoneGoes(s, p);
    }
  }

  predicate NobodyAborted(moves: seq<Move>) {
    forall n :: 0 <= n < |moves| ==> moves[n].Advance?
  }

  lemma {:induction false} FirstMove(s: System, m: Move, moves: seq<Move>)
    requires Shaped(s)
    ensures Schedule(s, [m] + moves) == Schedule(Apply(s, m), moves)
  {
    var all := [m] + moves;
    if moves == [] {
      assert all[..0] == [];
    } else {
      FirstMove(s, m, moves[..|moves| - 1]);
      assert all[..|all| - 1] == [m] + moves[..|moves| - 1];
    }
  }

  // From every state, some moves, none of them an abort, finish all requests.
  lemma {:induction false} CanFinish(s: System) returns (moves: seq<Move>)
    requires SystemInv(s)
    ensures NobodyAborted(moves) && AllFinished(Schedule(s, moves))
    decreases Work(s.phases)
  {
    if AllFinished(s) {
      moves := [];
    } else {
      var p := Unstuck(s);
      var next := Apply(s, Advance(p));
      WorkUpdate(s.phases, p, Progress(s, p).1);
      AdvanceKeeps(s, p);
      var rest := CanFinish(next);
      moves := [Advance(p)] + rest;
      FirstMove(s, Advance(p), rest);
    }
  }

  // No deadlock: after any interleaving of any requests, aborts included, the
  // ones still in flight can all be finished.
  lemma NeverStuck(db: Db, requests: seq<Command>, moves: seq<Move>)
    requires Inv(db) && KeyHashes(db)
    ensures exists more ::
              && NobodyAborted(more)
              && AllFinished(Schedule(Schedule(Start(db, requests), moves), more))
  {
    var s := Start(db, requests);
    StartInv(db, requests);
    ScheduleKeeps(s, moves);
    var more := CanFinish(Schedule(s, moves));
  }
}
