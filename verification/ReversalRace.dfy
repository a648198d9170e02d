// Races in which a reversal is not answered from what is stored under its
// key: two copies of one reversal sent at the same time, and a create's key
// reused for a reversal
// (services/ledger-core/internal/adapters/postgres/store.go:865-965).
module ReversalRaces {
  import opened Int64
  import opened Wrappers
  import opened Money
  import opened Domain
  import opened Fingerprints
  import opened LedgerTables
  import opened LedgerSteps
  import opened LedgerInvariant
  import opened Concurrent
  import opened SamplePayments

  // ---- The race, step by step ---------------------------------------------------------------------------------------

  predicate NoLocks(s: System) {
    forall q :: 0 <= q < |s.phases| ==> !s.phases[q].FundsLocked? && !s.phases[q].OriginalLocked?
  }

  // p and q are about to send the same reversal of row i, which can be
  // carried out.
  ghost predicate SameReversal(s: System, p: nat, q: nat, i: nat) {
    && Shaped(s) && p < |s.phases| && q < |s.phases| && p != q && NoLocks(s)
    && s.phases[p] == Idle && s.phases[q] == Idle
    && i < |s.db.txs| && FindTx(s.db.txs, s.db.txs[i].id) == Some(i)
    && var a, b := s.requests[p], s.requests[q];
       && a.ReverseOf? && b.ReverseOf? && a.id == b.id == s.db.txs[i].id && a.key == b.key && a.reason == b.reason
       && ServiceFault(a).None? && RequestKey(a) !in s.db.keys
       && ReversalFault(s.db.txs[i], a.ids).None?
       && ReverseInsert(s.db, i, s.db.txs[i], a.key, a.reason, a.now, a.revId, a.ids).Committed?
  }

  lemma MissesKey(s: System, p: nat)
    requires Shaped(s) && p < |s.phases| && s.phases[p] == Idle && Keyed(s.requests[p])
    requires ServiceFault(s.requests[p]).None? && RequestKey(s.requests[p]) !in s.db.keys
    ensures Apply(s, Advance(p)) == s.(phases := s.phases[p := Missed])
  {
  }

  lemma LocksOriginal(s: System, p: nat, i: nat)
    requires Shaped(s) && p < |s.phases| && s.phases[p] == Missed && s.requests[p].ReverseOf? && NoLocks(s)
    requires FindTx(s.db.txs, s.requests[p].id) == Some(i) && ReversalFault(s.db.txs[i], s.requests[p].ids).None?
    ensures Apply(s, Advance(p)) == s.(phases := s.phases[p := OriginalLocked(i, s.db.txs[i])])
  {
  }

  lemma CommitsReversal(s: System, p: nat, i: nat)
    requires Shaped(s) && p < |s.phases| && i < |s.db.txs| && s.requests[p].ReverseOf?
    requires s.phases[p] == OriginalLocked(i, s.db.txs[i]) && NoLocks(s.(phases := s.phases[p := Missed]))
    requires |s.requests[p].ids| == |s.db.txs[i].postings|
    requires var c := s.requests[p];
             ReverseInsert(s.db, i, s.db.txs[i], c.key, c.reason, c.now, c.revId, c.ids).Committed?
    ensures var c := s.requests[p];
            var r := ReverseInsert(s.db, i, s.db.txs[i], c.key, c.reason, c.now, c.revId, c.ids);
            Apply(s, Advance(p)) == s.(db := r.db, phases := s.phases[p := Finished(TxReply(Done(r.value, false)))])
  {
    forall q | 0 <= q < |s.phases| && q != p
      ensures !s.phases[q].FundsLocked? && !s.phases[q].OriginalLocked?
    {
      assert s.phases[p := Missed][q] == s.phases[q];
    }
  }

  lemma FindsReversed(s: System, q: nat, i: nat)
    requires Shaped(s) && q < |s.phases| && s.phases[q] == Missed && s.requests[q].ReverseOf? && NoLocks(s)
    requires FindTx(s.db.txs, s.requests[q].id) == Some(i) && s.db.txs[i].status == Reversed
    ensures Apply(s, Advance(q)) == s.(phases := s.phases[q := Finished(TxReply(Refused(InvalidState)))])
  {
  }

  // s with requests p and q at the given points.
  function At(s: System, p: nat, a: Phase, q: nat, b: Phase): (r: System)
    requires Shaped(s) && p < |s.phases| && q < |s.phases|
    ensures Shaped(r)
  {
    s.(phases := s.phases[p := a][q := b])
  }

  lemma BothMiss(s: System, p: nat, q: nat, i: nat)
    requires SameReversal(s, p, q, i)
    ensures Apply(Apply(s, Advance(p)), Advance(q)) == At(s, p, Missed, q, Missed)
  {
    MissesKey(s, p);
    MissesKey(s.(phases := s.phases[p := Missed]), q);
  }

  lemma FirstLocks(s: System, p: nat, q: nat, i: nat)
    requires SameReversal(s, p, q, i)
    ensures Apply(At(s, p, Missed, q, Missed), Advance(p)) == At(s, p, OriginalLocked(i, s.db.txs[i]), q, Missed)
  {
    var s2 := At(s, p, Missed, q, Missed);
    LocksOriginal(s2, p, i);
    assert s2.phases[p := OriginalLocked(i, s.db.txs[i])] == s.phases[p := OriginalLocked(i, s.db.txs[i])][q := Missed];
  }

  function Carried(s: System, p: nat, i: nat): Attempt<Transaction>
    requires i < |s.db.txs| && p < |s.requests| && s.requests[p].ReverseOf?
    requires |s.requests[p].ids| == |s.db.txs[i].postings|
  {
    var c := s.requests[p];
    ReverseInsert(s.db, i, s.db.txs[i], c.key, c.reason, c.now, c.revId, c.ids)
  }

  function AfterFirst(s: System, p: nat, q: nat, i: nat): (r: System)
    requires Shaped(s) && p < |s.phases| && q < |s.phases| && i < |s.db.txs| && s.requests[p].ReverseOf?
    requires |s.requests[p].ids| == |s.db.txs[i].postings| && Carried(s, p, i).Committed?
    ensures Shaped(r)
  {
    At(s, p, Finished(TxReply(Done(Carried(s, p, i).value, false))), q, Missed).(db := Carried(s, p, i).db)
  }

  lemma FirstCommits(s: System, p: nat, q: nat, i: nat)
    requires SameReversal(s, p, q, i)
    ensures Apply(At(s, p, OriginalLocked(i, s.db.txs[i]), q, Missed), Advance(p)) == AfterFirst(s, p, q, i)
  {
    var s3 := At(s, p, OriginalLocked(i, s.db.txs[i]), q, Missed);
    CommitsReversal(s3, p, i);
    var done := Finished(TxReply(Done(Carried(s, p, i).value, false)));
    assert s3.phases[p := done] == s.phases[p := done][q := Missed];
  }

  lemma SecondFails(s: System, p: nat, q: nat, i: nat)
    requires SameReversal(s, p, q, i) && s.requests[p].revId != s.db.txs[i].id
    ensures Apply(AfterFirst(s, p, q, i), Advance(q)).phases[q] == Finished(TxReply(Refused(InvalidState)))
    ensures Apply(AfterFirst(s, p, q, i), Advance(q)).db == AfterFirst(s, p, q, i).db
    ensures TookEffect(Apply(AfterFirst(s, p, q, i), Advance(q)).phases[p])
  {
    ReversedNow(s.db, i, s.requests[p]);
    FindsReversed(AfterFirst(s, p, q, i), q, i);
  }

  lemma FirstStored(s: System, p: nat, q: nat, i: nat)
    requires SameReversal(s, p, q, i)
    ensures var key := RequestKey(s.requests[q]);
            key in Carried(s, p, i).db.keys && Carried(s, p, i).db.keys[key].hash == RequestHash(s.requests[q])
  {
  }

  // Two copies of one reversal: both look up the key, the first locks the
  // original and commits, the second then gets the lock and is told the
  // state is invalid, while the response to its very request is stored.
  lemma ReversalRace(s: System, p: nat, q: nat, i: nat)
    requires SameReversal(s, p, q, i) && s.requests[p].revId != s.db.txs[i].id
    ensures var missed := Apply(Apply(s, Advance(p)), Advance(q));
            var carried := Apply(Apply(missed, Advance(p)), Advance(p));
            var r := Apply(carried, Advance(q));
            var key := RequestKey(s.requests[q]);
            && TookEffect(r.phases[p])
            && key in r.db.keys && r.db.keys[key].hash == RequestHash(s.requests[q])
            && r.phases[q] == Finished(TxReply(Refused(InvalidState)))
  {
    BothMiss(s, p, q, i);
    FirstLocks(s, p, q, i);
    FirstCommits(s, p, q, i);
    SecondFails(s, p, q, i);
    FirstStored(s, p, q, i);
  }

  lemma ReversedNow(db: Db, i: nat, c: Command)
    requires c.ReverseOf? && i < |db.txs| && ReversalFault(db.txs[i], c.ids).None? && c.revId != db.txs[i].id
    requires FindTx(db.txs, db.txs[i].id) == Some(i)
    requires ReverseInsert(db, i, db.txs[i], c.key, c.reason, c.now, c.revId, c.ids).Committed?
    ensures var after := ReverseInsert(db, i, db.txs[i], c.key, c.reason, c.now, c.revId, c.ids).db;
            FindTx(after.txs, db.txs[i].id) == Some(i) && after.txs[i].status == Reversed
  {
    var t := db.txs[i].(status := Reversed, reversedBy := Some(c.revId));
    FindTxUpdate(db.txs, i, t);
    assert (db.txs[i := t] + [ReversalRow(db.txs[i], c.key, c.reason, c.now, c.revId, c.ids)])[..|db.txs|] == db.txs[i := t];
  }

  lemma {:induction false} FindTxUpdate(txs: seq<Transaction>, i: nat, t: Transaction)
    requires i < |txs| && t.id == txs[i].id
    ensures FindTx(txs[i := t], t.id) == FindTx(txs, t.id)
  {
    var last := |txs| - 1;
    if i < last {
      FindTxUpdate(txs[..last], i, t);
      assert txs[i := t][..last] == txs[..last][i := t];
    }
  }

  // ---- A create's key reused for a reversal ---------------------------------------------------------------------

  // p is about to reverse something unknown under the key of q's create,
  // which can be carried out.
  ghost predicate SharedKey(s: System, p: nat, q: nat) {
    && Shaped(s) && p < |s.phases| && q < |s.phases| && p != q && NoLocks(s)
    && s.phases[p] == Idle && s.phases[q] == Idle
    && var a, b := s.requests[p], s.requests[q];
       && a.ReverseOf? && b.Create? && ServiceFault(a).None? && ServiceFault(b).None?
       && RequestKey(a) == RequestKey(b) && RequestKey(a) !in s.db.keys
       && FindTx(s.db.txs, a.id).None? && b.request.id != a.id
       && CreateFault(s.db, BuildTransaction(b.request)).None?
       && CreateInsert(s.db, BuildTransaction(b.request)).Committed?
  }

  lemma ChecksCreate(s: System, q: nat)
    requires Shaped(s) && q < |s.phases| && s.phases[q] == Missed && s.requests[q].Create? && NoLocks(s)
    requires CreateFault(s.db, BuildTransaction(s.requests[q].request)).None?
    ensures Apply(s, Advance(q)) == s.(phases := s.phases[q := Checked])
  {
  }

  lemma CommitsCreate(s: System, q: nat)
    requires Shaped(s) && q < |s.phases| && s.phases[q] == Checked && s.requests[q].Create? && NoLocks(s)
    requires CreateInsert(s.db, BuildTransaction(s.requests[q].request)).Committed?
    ensures var r := CreateInsert(s.db, BuildTransaction(s.requests[q].request));
            Apply(s, Advance(q)) == s.(db := r.db, phases := s.phases[q := Finished(TxReply(Done(r.value, false)))])
  {
  }

  lemma FindsNothing(s: System, p: nat)
    requires Shaped(s) && p < |s.phases| && s.phases[p] == Missed && s.requests[p].ReverseOf? && NoLocks(s)
    requires FindTx(s.db.txs, s.requests[p].id).None?
    ensures Apply(s, Advance(p)) == s.(phases := s.phases[p := Finished(TxReply(Refused(NotFound)))])
  {
  }

  lemma StillUnknown(db: Db, t: Transaction, id: Id)
    requires CreateInsert(db, t).Committed? && FindTx(db.txs, id).None? && t.id != id
    ensures FindTx(CreateInsert(db, t).db.txs, id).None?
  {
    assert (db.txs + [t])[..|db.txs|] == db.txs;
  }

  lemma BothUnstored(s: System, p: nat, q: nat)
    requires SharedKey(s, p, q)
    ensures Apply(Apply(s, Advance(p)), Advance(q)) == At(s, p, Missed, q, Missed)
  {
    MissesKey(s, p);
    MissesKey(s.(phases := s.phases[p := Missed]), q);
  }

  function Written(s: System, q: nat): Attempt<Transaction>
    requires q < |s.requests| && s.requests[q].Create?
  {
    CreateInsert(s.db, BuildTransaction(s.requests[q].request))
  }

  function AfterCreate(s: System, p: nat, q: nat): (r: System)
    requires Shaped(s) && p < |s.phases| && q < |s.phases| && s.requests[q].Create? && Written(s, q).Committed?
    ensures Shaped(r)
  {
    At(s, p, Missed, q, Finished(TxReply(Done(Written(s, q).value, false)))).(db := Written(s, q).db)
  }

  lemma CreateGoesThrough(s: System, p: nat, q: nat)
    requires SharedKey(s, p, q)
    ensures var missed := At(s, p, Missed, q, Missed);
            Apply(Apply(missed, Advance(q)), Advance(q)) == AfterCreate(s, p, q)
  {
    var missed := At(s, p, Missed, q, Missed);
    var checked := At(s, p, Missed, q, Checked);
    ChecksCreate(missed, q);
    assert missed.phases[q := Checked] == checked.phases;
    CommitsCreate(checked, q);
    var done := Finished(TxReply(Done(Written(s, q).value, false)));
    assert checked.phases[q := done] == AfterCreate(s, p, q).phases;
  }

  lemma ReversalLost(s: System, p: nat, q: nat)
    requires SharedKey(s, p, q)
    ensures var created := AfterCreate(s, p, q);
            && Apply(created, Advance(p)).phases == created.phases[p := Finished(TxReply(Refused(NotFound)))]
            && Apply(created, Advance(p)).db == created.db
  {
    StillUnknown(s.db, BuildTransaction(s.requests[q].request), s.requests[p].id);
    FindsNothing(AfterCreate(s, p, q), p);
  }

  lemma CreateStored(s: System, p: nat, q: nat)
    requires SharedKey(s, p, q)
    ensures var key := RequestKey(s.requests[p]);
            var db := Written(s, q).db;
            key in db.keys && db.keys[key].hash != RequestHash(s.requests[p])
  {
  }

  // The reversal looks up the key, the create is carried out under it, and
  // the reversal is told its original is unknown, not that the key is taken.
  lemma SharedKeyRace(s: System, p: nat, q: nat)
    requires SharedKey(s, p, q)
    ensures var missed := Apply(Apply(s, Advance(p)), Advance(q));
            var created := Apply(Apply(missed, Advance(q)), Advance(q));
            var r := Apply(created, Advance(p));
            var key := RequestKey(s.requests[p]);
            && TookEffect(r.phases[q])
            && key in r.db.keys && r.db.keys[key].hash != RequestHash(s.requests[p])
            && r.phases[p] == Finished(TxReply(Refused(NotFound)))
  {
    BothUnstored(s, p, q);
    CreateGoesThrough(s, p, q);
    ReversalLost(s, p, q);
    CreateStored(s, p, q);
  }

  // ---- A concrete ledger in which the race happens -----------------------------------------------------------

  const COPIES := [ReverseOf(10, "undo", "", 1, 20, [21, 22]), ReverseOf(10, "undo", "", 1, 30, [31, 32])]

  lemma ReversalFits()
    ensures var db := Run(EMPTY_DB, SETUP);
            var c := COPIES[0];
            && |db.txs| == 1 && ReversalFault(db.txs[0], c.ids).None?
            && ReverseInsert(db, 0, db.txs[0], c.key, c.reason, c.now, c.revId, c.ids).Committed?
  {
    PaymentCommits();
    var db := Run(EMPTY_DB, SETUP);
    var rev := ReversalRow(db.txs[0], "undo", "", 1, 20, [21, 22]);
    assert rev.postings == [Posting(21, 2, Credit, FIVE), Posting(22, 3, Debit, FIVE)];
    ReversedTable(rev.postings);
  }

  lemma ReversedTable(ps: seq<Posting>)
    requires ps == [Posting(21, 2, Credit, FIVE), Posting(22, 3, Debit, FIVE)]
    ensures TableFits(Applied(Applied(map[], ENTRIES, PostedColumn), ps, PostedColumn))
  {
    assert ENTRIES == [ENTRIES[0], ENTRIES[1]] && ps == [ps[0], ps[1]];
    SmallTable(map[], ENTRIES[0], ENTRIES[1], PostedColumn);
    SmallTable(Applied(map[], ENTRIES, PostedColumn), ps[0], ps[1], PostedColumn);
  }

  // One posted payment and two copies of its reversal are enough.
  lemma RaceIsReachable()
    ensures SameReversal(Start(Run(EMPTY_DB, SETUP), COPIES), 0, 1, 0)
    ensures COPIES[0].revId != Run(EMPTY_DB, SETUP).txs[0].id
  {
    PaymentCommits();
    ReversalFits();
  }

  const SHARERS := [ReverseOf(99, "payment", "", 1, 20, []), Create(PAYMENT)]

  // Before the payment, a reversal of something unknown under its key is
  // enough.
  lemma SharedKeyIsReachable()
    ensures SharedKey(Start(Run(EMPTY_DB, SETUP[..3]), SHARERS), 0, 1)
  {
    SetupRuns();
    EntriesBalanced();
    PaymentFits();
  }
}
