// What the ledger's operations do and reply, in terms of requests, rows and
// columns alone: when each of them goes through, what it then writes, and
// which error it gives otherwise
// (services/ledger-core/internal/adapters/postgres/store.go:657-1239).
module Outcomes {
  import opened Int64
  import opened Wrappers
  import opened Decimal
  import opened Money
  import opened Domain
  import opened Fingerprints
  import opened LedgerTables
  import opened LedgerSteps
  import opened LedgerInvariant
  import opened LedgerRuns
  import opened LedgerHistory

  // ---- Balance rows ------------------------------------------------------------------

  // The postings were added to the posted or to the pending columns.
  ghost predicate Booked(b: map<BalanceKey, Balance>, after: map<BalanceKey, Balance>, ps: seq<Posting>, posted: bool) {
    && after.Keys == b.Keys + Keys(ps)
    && forall k :: RowBooked(Row(b, k), Row(after, k), LegSum(ps, k, true), LegSum(ps, k, false), Hits(ps, k), posted)
  }

  predicate RowBooked(r: Balance, after: Balance, debit: int, credit: int, hits: nat, posted: bool) {
    && after.postedDebits == r.postedDebits + (if posted then debit else 0)
    && after.postedCredits == r.postedCredits + (if posted then credit else 0)
    && after.pendingDebits == r.pendingDebits + (if posted then 0 else debit)
    && after.pendingCredits == r.pendingCredits + (if posted then 0 else credit)
    && after.held == r.held && after.version == r.version + hits
  }

  // They moved from the pending to the posted columns.
  ghost predicate Moved(b: map<BalanceKey, Balance>, after: map<BalanceKey, Balance>, ps: seq<Posting>) {
    && after.Keys == b.Keys
    && forall k :: RowMoved(Row(b, k), Row(after, k), LegSum(ps, k, true), LegSum(ps, k, false), Hits(ps, k))
  }

  predicate RowMoved(r: Balance, after: Balance, debit: int, credit: int, hits: nat) {
    && after.postedDebits == r.postedDebits + debit && after.postedCredits == r.postedCredits + credit
    && after.pendingDebits == r.pendingDebits - debit && after.pendingCredits == r.pendingCredits - credit
    && after.held == r.held && after.version == r.version + hits
  }

  // No column of the rows they touch would leave BIGINT.
  ghost predicate Room(b: map<BalanceKey, Balance>, ps: seq<Posting>, posted: bool) {
    forall k :: RowRoom(Row(b, k), LegSum(ps, k, true), LegSum(ps, k, false), Hits(ps, k), posted)
  }

  predicate RowRoom(r: Balance, debit: int, credit: int, hits: nat, posted: bool) {
    && (if posted then r.postedDebits else r.pendingDebits) + debit <= MAX_INT64
    && (if posted then r.postedCredits else r.pendingCredits) + credit <= MAX_INT64
    && r.version + hits <= MAX_INT64
  }

  lemma BookedExact(b: map<BalanceKey, Balance>, ps: seq<Posting>, posted: bool)
    ensures Booked(b, Applied(b, ps, if posted then PostedColumn else PendingColumn), ps, posted)
  {
    forall k
      ensures var after := Applied(b, ps, if posted then PostedColumn else PendingColumn);
              RowBooked(Row(b, k), Row(after, k), LegSum(ps, k, true), LegSum(ps, k, false), Hits(ps, k), posted)
    {
      AppliedRow(b, ps, if posted then PostedColumn else PendingColumn, k);
    }
  }

  lemma MovedExact(b: map<BalanceKey, Balance>, ps: seq<Posting>)
    requires Keys(ps) <= b.Keys
    ensures Moved(b, Promoted(b, ps), ps)
  {
    forall k
      ensures RowMoved(Row(b, k), Row(Promoted(b, ps), k), LegSum(ps, k, true), LegSum(ps, k, false), Hits(ps, k))
    {
      if k !in b {
        Untouched(ps, k, true);
        Untouched(ps, k, false);
      }
    }
  }

  lemma RoomExact(b: map<BalanceKey, Balance>, ps: seq<Posting>, posted: bool)
    requires TableFits(b) && NonNegative(ps)
    ensures TableFits(Applied(b, ps, if posted then PostedColumn else PendingColumn)) <==> Room(b, ps, posted)
  {
    var c := if posted then PostedColumn else PendingColumn;
    forall k
      ensures RowRoom(Row(b, k), LegSum(ps, k, true), LegSum(ps, k, false), Hits(ps, k), posted)
              <==> RowFits(Row(Applied(b, ps, c), k))
    {
      AppliedRow(b, ps, c, k);
      LegSumPrefix(ps, 0, k, true);
      LegSumPrefix(ps, 0, k, false);
      assert RowFits(Row(b, k));
    }
    if Room(b, ps, posted) {
      forall k | k in Applied(b, ps, c)
        ensures RowFits(Applied(b, ps, c)[k])
      {
        assert RowRoom(Row(b, k), LegSum(ps, k, true), LegSum(ps, k, false), Hits(ps, k), posted);
      }
    }
  }

  // ---- Accounts and ids ----------------------------------------------------------------

  predicate OwnAccount(db: Db, ledger: Id, p: Posting) {
    p.account in db.accounts && db.accounts[p.account].ledger == ledger
  }

  // Posting n is the first on an account that is unknown or of another ledger.
  ghost predicate FirstFault(db: Db, ledger: Id, ps: seq<Posting>, n: int) {
    && 0 <= n < |ps| && !OwnAccount(db, ledger, ps[n])
    && forall i :: 0 <= i < n ==> OwnAccount(db, ledger, ps[i])
  }

  lemma {:induction false} NoFault(db: Db, ledger: Id, ps: seq<Posting>)
    requires forall i :: 0 <= i < |ps| ==> OwnAccount(db, ledger, ps[i])
    ensures AccountsFault(db.accounts, ledger, ps).None?
  {
    if ps != [] {
      NoFault(db, ledger, ps[..|ps| - 1]);
    }
  }

  lemma {:induction false} FaultAt(db: Db, ledger: Id, ps: seq<Posting>, n: nat)
    requires FirstFault(db, ledger, ps, n)
    ensures AccountsFault(db.accounts, ledger, ps)
         == Some(if ps[n].account in db.accounts then ValidationFailed else NotFound)
    decreases |ps|
  {
    var last := |ps| - 1;
    if n < last {
      FaultAt(db, ledger, ps[..last], n);
    } else {
      NoFault(db, ledger, ps[..last]);
    }
  }

  lemma {:induction false} SomeFirst(db: Db, ledger: Id, ps: seq<Posting>) returns (n: nat)
    requires exists i :: 0 <= i < |ps| && !OwnAccount(db, ledger, ps[i])
    ensures FirstFault(db, ledger, ps, n)
  {
    var last := |ps| - 1;
    if i :| 0 <= i < last && !OwnAccount(db, ledger, ps[i]) {
      assert !OwnAccount(db, ledger, ps[..last][i]);
      n := SomeFirst(db, ledger, ps[..last]);
    } else {
      n := last;
    }
  }

  lemma FaultExact(db: Db, ledger: Id, ps: seq<Posting>)
    ensures AccountsFault(db.accounts, ledger, ps).None? <==> forall i :: 0 <= i < |ps| ==> OwnAccount(db, ledger, ps[i])
    ensures AccountsFault(db.accounts, ledger, ps).Some? ==>
              exists n :: FirstFault(db, ledger, ps, n)
    ensures forall n :: FirstFault(db, ledger, ps, n) ==>
              AccountsFault(db.accounts, ledger, ps)
              == Some(if ps[n].account in db.accounts then ValidationFailed else NotFound)
  {
    if forall i :: 0 <= i < |ps| ==> OwnAccount(db, ledger, ps[i]) {
      NoFault(db, ledger, ps);
    } else {
      var n := SomeFirst(db, ledger, ps);
      FaultAt(db, ledger, ps, n);
    }
    forall n | FirstFault(db, ledger, ps, n)
      ensures AccountsFault(db.accounts, ledger, ps)
              == Some(if ps[n].account in db.accounts then ValidationFailed else NotFound)
    {
      FaultAt(db, ledger, ps, n);
    }
  }

  // Nothing stored has the transaction's id or one of the postings' ids, and
  // the postings' ids differ.
  ghost predicate IdsFree(db: Db, id: Id, ps: seq<Posting>) {
    && (forall i :: 0 <= i < |db.txs| ==> db.txs[i].id != id)
    && (forall i, j :: 0 <= i < j < |ps| ==> ps[i].id != ps[j].id)
    && (forall t, p, q :: t in db.txs && p in t.postings && q in ps ==> p.id != q.id)
  }

  lemma InsertableExact(db: Db, t: Transaction)
    requires Inv(db) && t.key !in db.keys
    ensures Insertable(db, t) <==> IdsFree(db, t.id, t.postings)
  {
  }

  // ---- Creating a transaction ----------------------------------------------------------------

  predicate CreateOk(r: CreateRequest) {
    1 <= |r.key| <= 255 && r.ledger != 0 && r.status != Some(Reversed) && |r.postings| <= 1000
  }

  // A posting command wrote transaction t and nothing but it and what it
  // entails.
  ghost predicate Written(db: Db, after: Db, t: Transaction) {
    && after.ledgers == db.ledgers && after.accounts == db.accounts && after.holds == db.holds
    && t.key !in db.keys && t.key in after.keys && Shows(after.keys[t.key].response, t)
    && after.keys == db.keys[t.key := after.keys[t.key]]
    && Booked(db.balances, after.balances, t.postings, t.status == Posted)
  }

  // The stored row of an accepted create request, column by column.
  predicate CreatedFrom(r: CreateRequest, t: Transaction) {
    && t.id == r.id && t.ledger == r.ledger && t.key == r.key && t.reference == r.reference
    && t.description == r.description && t.metadata == r.metadata && t.postings == r.postings && t.createdAt == r.now
    && t.status == (if r.status == Some(Draft) then Draft else Posted)
    && t.postedAt == (if r.status == Some(Draft) then None else Some(r.now))
    && t.effectiveAt == (if r.effectiveAt.Some? then r.effectiveAt.value else r.now)
    && t.effectiveAtProvided == r.effectiveAt.Some?
    && t.reversedBy == None && t.reverses == None
  }

  // The last event announces t, and no other was added.
  ghost predicate Announces(db: Db, after: Db, t: Transaction) {
    && |after.outbox| == |db.outbox| + 1 && db.outbox <= after.outbox
    && EventOf(after.outbox[|db.outbox|], t)
  }

  ghost predicate CreateDone(db: Db, r: CreateRequest, after: Db, reply: Reply<Transaction>) {
    && reply.Done? && !reply.replayed && CreatedFrom(r, reply.value)
    && after.txs == db.txs + [reply.value] && Written(db, after, reply.value)
    && (if r.status == Some(Draft) then after.outbox == db.outbox else Announces(db, after, reply.value))
  }

  // The errors of a request whose key is not taken, in the order in which
  // they are found.
  ghost predicate CreateRefused(db: Db, r: CreateRequest, e: AppError) {
    if !CreateOk(r) then e == ValidationFailed
    else if !Balanced(r.postings) then e == BrokenRule
    else if r.ledger !in db.ledgers then e == NotFound
    else if exists n :: FirstFault(db, r.ledger, r.postings, n) then
      exists n :: FirstFault(db, r.ledger, r.postings, n)
                  && e == if r.postings[n].account in db.accounts then ValidationFailed else NotFound
    else if !IdsFree(db, r.id, r.postings) then e == Conflict
    else !Room(db.balances, r.postings, r.status != Some(Draft)) && e == Internal
  }

  lemma RequestFault(r: CreateRequest)
    ensures CreateRequestFault(r)
         == if !CreateOk(r) then Some(ValidationFailed) else if !Balanced(r.postings) then Some(BrokenRule) else None
  {
  }

  lemma BuiltFrom(r: CreateRequest)
    requires CreateOk(r)
    ensures CreatedFrom(r, BuildTransaction(r))
  {
  }

  lemma InsertWrites(db: Db, t: Transaction)
    requires CreateInsert(db, t).Committed? && (t.status == Draft || t.status == Posted)
    ensures CreateInsert(db, t).value == t && CreateInsert(db, t).db.txs == db.txs + [t]
    ensures Written(db, CreateInsert(db, t).db, t)
    ensures if t.status == Draft then CreateInsert(db, t).db.outbox == db.outbox else Announces(db, CreateInsert(db, t).db, t)
  {
    BookedExact(db.balances, t.postings, t.status == Posted);
    EventBuilt(t);
  }

  // What a balanced, well-formed transaction with an unused key meets.
  lemma InsertExact(db: Db, t: Transaction)
    requires Inv(db) && t.key !in db.keys && Balanced(t.postings) && (t.status == Draft || t.status == Posted)
    ensures CreateInsert(db, t).UniqueViolation? <==> !IdsFree(db, t.id, t.postings)
    ensures CreateInsert(db, t).Committed? <==> IdsFree(db, t.id, t.postings) && Room(db.balances, t.postings, t.status == Posted)
    ensures CreateInsert(db, t).Rejected? ==> CreateInsert(db, t).error == Internal
  {
    InsertableExact(db, t);
    BalancedNonNegative(t.postings);
    RoomExact(db.balances, t.postings, t.status == Posted);
  }

  lemma StoreExact(db: Db, t: Transaction)
    requires Inv(db) && t.key !in db.keys && Balanced(t.postings) && (t.status == Draft || t.status == Posted)
    ensures var (after, reply) := CreateTransaction(db, t);
            var posted := t.status == Posted;
            if t.ledger !in db.ledgers then after == db && reply == Refused(NotFound)
            else if exists n :: FirstFault(db, t.ledger, t.postings, n) then
              after == db
              && exists n :: FirstFault(db, t.ledger, t.postings, n)
                             && reply == Refused(if t.postings[n].account in db.accounts then ValidationFailed else NotFound)
            else if !IdsFree(db, t.id, t.postings) then after == db && reply == Refused(Conflict)
            else if !Room(db.balances, t.postings, posted) then after == db && reply == Refused(Internal)
            else && reply == Done(t, false) && after.txs == db.txs + [t] && Written(db, after, t)
                 && if posted then Announces(db, after, t) else after.outbox == db.outbox
  {
    FaultExact(db, t.ledger, t.postings);
    if CreateFault(db, t).None? {
      InsertExact(db, t);
      if CreateInsert(db, t).Committed? {
        InsertWrites(db, t);
      }
    }
  }

  // A create request with an unused key is refused, with the first error that
  // applies, or carried out in full.
  lemma CreateExact(db: Db, r: CreateRequest)
    requires Inv(db) && r.key !in db.keys
    ensures var (after, reply) := ServiceCreate(db, r);
            || (reply.Refused? && after == db && CreateRefused(db, r, reply.error))
            || CreateDone(db, r, after, reply)
    ensures ServiceCreate(db, r).1.Done? <==>
              && CreateOk(r) && Balanced(r.postings) && r.ledger in db.ledgers
              && (forall i :: 0 <= i < |r.postings| ==> OwnAccount(db, r.ledger, r.postings[i]))
              && IdsFree(db, r.id, r.postings) && Room(db.balances, r.postings, r.status != Some(Draft))
  {
    RequestFault(r);
    if CreateOk(r) && Balanced(r.postings) {
      BuiltFrom(r);
      FaultExact(db, r.ledger, r.postings);
      StoreExact(db, BuildTransaction(r));
    }
  }

  // ---- Posting a draft ---------------------------------------------------------------------

  lemma {:induction false} DraftCovered(txs: seq<Transaction>, i: nat, k: BalanceKey, debit: bool)
    requires i < |txs| && txs[i].status == Draft
    requires forall j :: 0 <= j < |txs| ==> NonNegative(txs[j].postings)
    ensures 0 <= LegSum(txs[i].postings, k, debit) <= TxSum(txs, k, debit, false)
  {
    var last := |txs| - 1;
    LegSumPrefix(txs[i].postings, 0, k, debit);
    if i == last {
      PendingNonNegative(txs[..last], k, debit);
    } else {
      DraftCovered(txs[..last], i, k, debit);
      LegSumPrefix(txs[last].postings, 0, k, debit);
    }
  }

  lemma {:induction false} PendingNonNegative(txs: seq<Transaction>, k: BalanceKey, debit: bool)
    requires forall j :: 0 <= j < |txs| ==> NonNegative(txs[j].postings)
    ensures 0 <= TxSum(txs, k, debit, false)
  {
    if txs != [] {
      PendingNonNegative(txs[..|txs| - 1], k, debit);
      LegSumPrefix(txs[|txs| - 1].postings, 0, k, debit);
    }
  }

  lemma StoredNonNegative(db: Db)
    requires Sound(db)
    ensures forall j :: 0 <= j < |db.txs| ==> NonNegative(db.txs[j].postings)
  {
    forall j | 0 <= j < |db.txs|
      ensures NonNegative(db.txs[j].postings)
    {
      assert SoundTx(db.ledgers, db.accounts, db.txs[j]);
      BalancedNonNegative(db.txs[j].postings);
    }
  }

  // Moving a draft's amounts needs no room but in the posted columns: the
  // pending ones hold at least what is taken from them.
  lemma MoveArithmetic(r: Balance, debit: int, credit: int, hits: nat)
    requires RowFits(r) && 0 <= debit <= r.pendingDebits && 0 <= credit <= r.pendingCredits
    ensures RowFits(Promote(r, debit, credit, hits)) <==> RowRoom(r, debit, credit, hits, true)
  {
  }

  lemma DraftPending(db: Db, i: nat, k: BalanceKey, debit: bool)
    requires Sound(db) && IndexAgrees(db.txs, db.holds, db.balances) && i < |db.txs| && db.txs[i].status == Draft
    ensures 0 <= LegSum(db.txs[i].postings, k, debit)
            <= if debit then Row(db.balances, k).pendingDebits else Row(db.balances, k).pendingCredits
  {
    StoredNonNegative(db);
    DraftCovered(db.txs, i, k, debit);
    assert RowAgrees(db.txs, db.holds, db.balances, k);
  }

  lemma MoveFits(db: Db, i: nat, k: BalanceKey)
    requires Sound(db) && IndexAgrees(db.txs, db.holds, db.balances) && TableFits(db.balances)
    requires i < |db.txs| && db.txs[i].status == Draft && k in db.balances
    ensures var ps := db.txs[i].postings;
            RowFits(Promoted(db.balances, ps)[k])
            <==> RowRoom(db.balances[k], LegSum(ps, k, true), LegSum(ps, k, false), Hits(ps, k), true)
  {
    var ps := db.txs[i].postings;
    DraftPending(db, i, k, true);
    DraftPending(db, i, k, false);
    MoveArithmetic(db.balances[k], LegSum(ps, k, true), LegSum(ps, k, false), Hits(ps, k));
  }

  lemma MoveRoom(db: Db, i: nat)
    requires Inv(db) && i < |db.txs| && db.txs[i].status == Draft
    ensures TableFits(Promoted(db.balances, db.txs[i].postings)) <==> Room(db.balances, db.txs[i].postings, true)
  {
    var b, ps := db.balances, db.txs[i].postings;
    PromoteFindsRows(db, i);
    forall k
      ensures k in b ==> (RowFits(Promoted(b, ps)[k])
                          <==> RowRoom(Row(b, k), LegSum(ps, k, true), LegSum(ps, k, false), Hits(ps, k), true))
      ensures k !in b ==> RowRoom(Row(b, k), LegSum(ps, k, true), LegSum(ps, k, false), Hits(ps, k), true)
    {
      if k in b {
        MoveFits(db, i, k);
      } else {
        Untouched(ps, k, true);
        Untouched(ps, k, false);
      }
    }
    if Room(b, ps, true) {
      forall k | k in Promoted(b, ps)
        ensures RowFits(Promoted(b, ps)[k])
      {
        assert RowRoom(Row(b, k), LegSum(ps, k, true), LegSum(ps, k, false), Hits(ps, k), true);
      }
    }
  }

  // The draft in row i became the posted transaction t.
  ghost predicate PostDone(db: Db, i: nat, now: Time, after: Db, t: Transaction)
    requires i < |db.txs|
  {
    && t == db.txs[i].(status := Posted, postedAt := Some(now))
    && after.txs == db.txs[i := t] && Moved(db.balances, after.balances, t.postings)
    && Announces(db, after, t)
    && after.ledgers == db.ledgers && after.accounts == db.accounts && after.holds == db.holds && after.keys == db.keys
  }

  lemma PostDraftExact(db: Db, i: nat, now: Time)
    requires Inv(db) && i < |db.txs| && db.txs[i].status == Draft && FindTx(db.txs, db.txs[i].id) == Some(i)
    ensures var (after, reply) := PostTransaction(db, db.txs[i].id, now);
            if Room(db.balances, db.txs[i].postings, true)
            then reply.Done? && !reply.replayed && PostDone(db, i, now, after, reply.value)
            else after == db && reply == Refused(Internal)
  {
    MoveRoom(db, i);
    PromoteFindsRows(db, i);
    MovedExact(db.balances, db.txs[i].postings);
    EventBuilt(db.txs[i].(status := Posted, postedAt := Some(now)));
  }

  // Posting is decided by the status of the row: a draft is posted, if there
  // is room; a posted transaction is returned as it is; a reversed or unknown
  // one is an error.
  lemma PostExact(db: Db, i: nat, now: Time)
    requires Inv(db) && i < |db.txs|
    ensures var (after, reply) := PostTransaction(db, db.txs[i].id, now);
            match db.txs[i].status
            case Posted => after == db && reply == Done(db.txs[i], false)
            case Reversed => after == db && reply == Refused(InvalidState)
            case Draft =>
              if Room(db.balances, db.txs[i].postings, true)
              then reply.Done? && !reply.replayed && PostDone(db, i, now, after, reply.value)
              else after == db && reply == Refused(Internal)
  {
    FoundAt(db.txs, i);
    if db.txs[i].status == Draft {
      PostDraftExact(db, i, now);
    }
  }

  lemma FoundAt(txs: seq<Transaction>, i: nat)
    requires UniqueTxs(txs) && i < |txs|
    ensures FindTx(txs, txs[i].id) == Some(i)
  {
  }

  lemma PostUnknown(db: Db, id: Id, now: Time)
    requires forall i :: 0 <= i < |db.txs| ==> db.txs[i].id != id
    ensures PostTransaction(db, id, now) == (db, Refused(NotFound))
  {
  }

  // ---- Reversing -------------------------------------------------------------------------------

  predicate ReverseOk(key: string, reason: string) {
    |key| <= 255 && |reason| <= 1024
  }

  // The key a reversal is stored under.
  function KeyFor(id: Id, key: string): string {
    if key != "" then key else "reversal-of:" + IdText(id)
  }

  // The stored row of a reversal, column by column.
  predicate Compensates(original: Transaction, rev: Transaction, key: string, reason: string, now: Time, revId: Id, ids: seq<Id>) {
    && rev.id == revId && rev.ledger == original.ledger && rev.key == KeyFor(original.id, key)
    && rev.reference == "reversal-of:" + IdText(original.id)
    && rev.description == "Reversal of " + original.key + (if reason == "" then "" else ": " + reason)
    && rev.status == Posted && rev.effectiveAt == now && rev.postedAt == Some(now) && rev.createdAt == now
    && !rev.effectiveAtProvided && rev.metadata == None
    && rev.reversedBy == None && rev.reverses == Some(original.id)
    && |rev.postings| == |ids| == |original.postings|
    && forall n :: 0 <= n < |ids| ==>
         && rev.postings[n].id == ids[n]
         && rev.postings[n].account == original.postings[n].account
         && rev.postings[n].amount == original.postings[n].amount
         && (original.postings[n].direction == Debit ==> rev.postings[n].direction == Credit)
         && (original.postings[n].direction == Credit ==> rev.postings[n].direction == Debit)
  }

  ghost predicate ReverseDone(db: Db, i: nat, key: string, reason: string, now: Time, revId: Id, ids: seq<Id>, after: Db, rev: Transaction)
    requires i < |db.txs|
  {
    && Compensates(db.txs[i], rev, key, reason, now, revId, ids)
    && after.txs == db.txs[i := db.txs[i].(status := Reversed, reversedBy := Some(revId))] + [rev]
    && Written(db, after, rev) && after.keys[rev.key].hash == CanonicalReversal(db.txs[i].id, reason)
    && after.outbox == db.outbox + [TransactionReversed(db.txs[i].id, revId, db.txs[i].ledger, reason, now)]
  }

  // Only a posted transaction can be reversed, and only once: what else can
  // stop a reversal with an unused key are ids that are taken and columns
  // that are full. A missing posting id stands for a failing id generator.
  ghost predicate ReverseRefused(db: Db, i: nat, revId: Id, ids: seq<Id>, e: AppError)
    requires i < |db.txs|
  {
    if db.txs[i].status != Posted then e == InvalidState
    else if |ids| != |db.txs[i].postings| then e == Internal
    else if !ReversalIdsFree(db, revId, ids) then e == Conflict
    else !ReversalRoom(db, i) && e == Internal
  }

  ghost predicate ReversalIdsFree(db: Db, revId: Id, ids: seq<Id>) {
    && (forall i :: 0 <= i < |db.txs| ==> db.txs[i].id != revId)
    && (forall i, j :: 0 <= i < j < |ids| ==> ids[i] != ids[j])
    && (forall t, p, id :: t in db.txs && p in t.postings && id in ids ==> p.id != id)
  }

  // Room for the original's amounts on the other side of each row.
  ghost predicate ReversalRoom(db: Db, i: nat)
    requires i < |db.txs|
  {
    var ps := db.txs[i].postings;
    forall k :: RowRoom(Row(db.balances, k), LegSum(ps, k, false), LegSum(ps, k, true), Hits(ps, k), true)
  }

  lemma RowCompensates(original: Transaction, key: string, reason: string, now: Time, revId: Id, ids: seq<Id>)
    requires |ids| == |original.postings|
    ensures Compensates(original, ReversalRow(original, key, reason, now, revId, ids), key, reason, now, revId, ids)
  {
  }

  lemma ReversalIdsExact(db: Db, rev: Transaction, ids: seq<Id>)
    requires |ids| == |rev.postings| && forall n :: 0 <= n < |ids| ==> rev.postings[n].id == ids[n]
    ensures IdsFree(db, rev.id, rev.postings) <==> ReversalIdsFree(db, rev.id, ids)
  {
    forall q | q in rev.postings
      ensures q.id in ids
    {
      var n :| 0 <= n < |ids| && rev.postings[n] == q;
      assert ids[n] == q.id;
    }
    forall id | id in ids
      ensures exists q :: q in rev.postings && q.id == id
    {
      var n :| 0 <= n < |ids| && ids[n] == id;
      assert rev.postings[n] in rev.postings;
    }
  }

  lemma {:induction false} MirrorHits(ps: seq<Posting>, qs: seq<Posting>, k: BalanceKey)
    requires MirrorOf(ps, qs)
    ensures Hits(ps, k) == Hits(qs, k)
  {
    if ps != [] {
      MirrorHits(ps[..|ps| - 1], qs[..|qs| - 1], k);
    }
  }

  lemma ReversalRoomExact(db: Db, i: nat, ids: seq<Id>)
    requires i < |db.txs| && |ids| == |db.txs[i].postings| && Balanced(db.txs[i].postings)
    ensures Room(db.balances, MirrorPostings(db.txs[i].postings, ids), true) <==> ReversalRoom(db, i)
  {
    var ps := db.txs[i].postings;
    var qs := MirrorPostings(ps, ids);
    MirrorNonNegative(ps, ids);
    forall k
      ensures LegSum(qs, k, true) == LegSum(ps, k, false) && LegSum(qs, k, false) == LegSum(ps, k, true)
      ensures Hits(qs, k) == Hits(ps, k)
    {
      MirrorLegs(qs, ps, k);
      MirrorHits(qs, ps, k);
    }
    if Room(db.balances, qs, true) {
      forall k
        ensures RowRoom(Row(db.balances, k), LegSum(ps, k, false), LegSum(ps, k, true), Hits(ps, k), true)
      {
        assert RowRoom(Row(db.balances, k), LegSum(qs, k, true), LegSum(qs, k, false), Hits(qs, k), true);
      }
    }
    if ReversalRoom(db, i) {
      forall k
        ensures RowRoom(Row(db.balances, k), LegSum(qs, k, true), LegSum(qs, k, false), Hits(qs, k), true)
      {
        assert RowRoom(Row(db.balances, k), LegSum(ps, k, false), LegSum(ps, k, true), Hits(ps, k), true);
      }
    }
  }

  // The insert of a reversal whose key is unused.
  lemma ReverseInsertExact(db: Db, i: nat, key: string, reason: string, now: Time, revId: Id, ids: seq<Id>)
    requires Inv(db) && i < |db.txs| && |ids| == |db.txs[i].postings|
    requires KeyFor(db.txs[i].id, key) !in db.keys
    ensures var a := ReverseInsert(db, i, db.txs[i], key, reason, now, revId, ids);
            if !ReversalIdsFree(db, revId, ids) then a.UniqueViolation?
            else if !ReversalRoom(db, i) then a == Rejected(Internal)
            else a.Committed? && ReverseDone(db, i, key, reason, now, revId, ids, a.db, a.value)
  {
    var original := db.txs[i];
    var rev := ReversalRow(original, key, reason, now, revId, ids);
    assert SoundTx(db.ledgers, db.accounts, original);
    MirrorNonNegative(original.postings, ids);
    RowCompensates(original, key, reason, now, revId, ids);
    InsertableExact(db, rev);
    ReversalIdsExact(db, rev, ids);
    RoomExact(db.balances, rev.postings, true);
    ReversalRoomExact(db, i, ids);
    BookedExact(db.balances, rev.postings, true);
  }

  lemma ReverseCheckExact(db: Db, i: nat)
    requires Inv(db) && i < |db.txs|
    ensures ReverseCheck(db.txs[i]).Some? <==> db.txs[i].status != Posted
  {
    assert LinkedRow(db.txs, i);
  }

  lemma ReverseBodyExact(db: Db, i: nat, key: string, reason: string, now: Time, revId: Id, ids: seq<Id>)
    requires Inv(db) && i < |db.txs| && KeyFor(db.txs[i].id, key) !in db.keys
    ensures var a := ReverseBody(db, db.txs[i].id, key, reason, now, revId, ids);
            if db.txs[i].status != Posted then a == Rejected(InvalidState)
            else if |ids| != |db.txs[i].postings| then a == Rejected(Internal)
            else if !ReversalIdsFree(db, revId, ids) then a.UniqueViolation?
            else if !ReversalRoom(db, i) then a == Rejected(Internal)
            else a.Committed? && ReverseDone(db, i, key, reason, now, revId, ids, a.db, a.value)
  {
    FoundAt(db.txs, i);
    ReverseCheckExact(db, i);
    if |ids| == |db.txs[i].postings| {
      ReverseInsertExact(db, i, key, reason, now, revId, ids);
    }
  }

  lemma ReverseReply(db: Db, id: Id, key: string, reason: string, now: Time, revId: Id, ids: seq<Id>)
    requires ReverseOk(key, reason) && KeyFor(id, key) !in db.keys
    ensures ServiceReverse(db, id, key, reason, now, revId, ids)
         == match ReverseBody(db, id, key, reason, now, revId, ids)
            case Committed(after, rev) => (after, Done(rev, false))
            case UniqueViolation => (db, Refused(Conflict))
            case Rejected(e) => (db, Refused(e))
  {
  }

  // A reversal with an unused key is refused, with the first error that
  // applies, or carried out in full.
  lemma ReverseExact(db: Db, i: nat, key: string, reason: string, now: Time, revId: Id, ids: seq<Id>)
    requires Inv(db) && i < |db.txs| && ReverseOk(key, reason) && KeyFor(db.txs[i].id, key) !in db.keys
    ensures var (after, reply) := ServiceReverse(db, db.txs[i].id, key, reason, now, revId, ids);
            || (reply.Refused? && after == db && ReverseRefused(db, i, revId, ids, reply.error))
            || (reply.Done? && !reply.replayed && ReverseDone(db, i, key, reason, now, revId, ids, after, reply.value))
    ensures ServiceReverse(db, db.txs[i].id, key, reason, now, revId, ids).1.Done? <==>
              && db.txs[i].status == Posted && |ids| == |db.txs[i].postings|
              && ReversalIdsFree(db, revId, ids) && ReversalRoom(db, i)
  {
    ReverseBodyExact(db, i, key, reason, now, revId, ids);
    ReverseReply(db, db.txs[i].id, key, reason, now, revId, ids);
  }

  lemma ReverseUnknown(db: Db, id: Id, key: string, reason: string, now: Time, revId: Id, ids: seq<Id>)
    requires KeyFor(id, key) !in db.keys && forall i :: 0 <= i < |db.txs| ==> db.txs[i].id != id
    ensures ServiceReverse(db, id, key, reason, now, revId, ids)
         == (db, Refused(if ReverseOk(key, reason) then NotFound else ValidationFailed))
  {
  }

  lemma ReverseTooLong(db: Db, id: Id, key: string, reason: string, now: Time, revId: Id, ids: seq<Id>)
    requires !ReverseOk(key, reason)
    ensures ServiceReverse(db, id, key, reason, now, revId, ids) == (db, Refused(ValidationFailed))
  {
  }

  // ---- Ledgers and accounts --------------------------------------------------------------

  // A ledger needs a new id and a new name, an account a known ledger, a new
  // id and a path of its own in that ledger.
  lemma LedgerExact(db: Db, id: Id, name: string)
    ensures var (after, reply) := CreateLedger(db, id, name);
            if id in db.ledgers || exists x :: x in db.ledgers && db.ledgers[x] == name
            then after == db && reply == Refused(Conflict)
            else reply == Done((), false) && after == db.(ledgers := db.ledgers[id := name])
  {
  }

  lemma AccountExact(db: Db, id: Id, a: Account)
    ensures var (after, reply) := CreateAccount(db, id, a);
            if a.ledger !in db.ledgers then after == db && reply == Refused(NotFound)
            else if id in db.accounts
                    || exists x :: x in db.accounts && db.accounts[x].ledger == a.ledger && db.accounts[x].path == a.path
            then after == db && reply == Refused(Conflict)
            else reply == Done((), false) && after == db.(accounts := db.accounts[id := a])
  {
  }
}
