// The persistence adapter (internal/adapters/postgres/store.go): each method
// works on its own copy of the tables it writes, the open database
// transaction, and installs all of them at once or none.
module LedgerStore {
  import opened Int64
  import opened Wrappers
  import opened Decimal
  import opened Money
  import opened Domain
  import opened Fingerprints
  import opened LedgerTables
  import LedgerSteps
  import opened LedgerInvariant
  import LedgerRuns

  type AppError = LedgerSteps.AppError
  type Reply<T> = LedgerSteps.Reply<T>

  lemma FaultSnoc(accounts: map<Id, Account>, ledger: Id, ps: seq<Posting>, i: nat)
    requires i < |ps|
    ensures LedgerSteps.AccountsFault(accounts, ledger, ps[..i + 1])
         == match LedgerSteps.AccountsFault(accounts, ledger, ps[..i])
            case Some(e) => Some(e)
            case None => LedgerSteps.AccountFault(accounts, ledger, ps[i].account)
  {
    assert ps[..i + 1][..i] == ps[..i];
  }

  function IdsFault(accounts: map<Id, Account>, ledger: Id, ids: seq<Id>): Option<AppError> {
    if ids == [] then None
    else
      match IdsFault(accounts, ledger, ids[..|ids| - 1])
      case Some(e) => Some(e)
      case None => LedgerSteps.AccountFault(accounts, ledger, ids[|ids| - 1])
  }

  lemma {:induction false} NoFaultNowhere(accounts: map<Id, Account>, ledger: Id, ids: seq<Id>, id: Id)
    requires IdsFault(accounts, ledger, ids).None? && id in ids
    ensures LedgerSteps.AccountFault(accounts, ledger, id).None?
  {
    if id != ids[|ids| - 1] {
      NoFaultNowhere(accounts, ledger, ids[..|ids| - 1], id);
    }
  }

  // checkAccountsInLedger: every distinct account once, in order of first
  // appearance.
  method CheckAccountsInLedger(accounts: map<Id, Account>, ledger: Id, ps: seq<Posting>)
    returns (r: Option<AppError>)
    ensures r == LedgerSteps.AccountsFault(accounts, ledger, ps)
  {
    var ids: seq<Id> := [];
    var seen: set<Id> := {};
    for i := 0 to |ps|
      invariant seen == set id | id in ids
      invariant IdsFault(accounts, ledger, ids) == LedgerSteps.AccountsFault(accounts, ledger, ps[..i])
    {
      var id := ps[i].account;
      FaultSnoc(accounts, ledger, ps, i);
      if id !in seen {
        seen := seen + {id};
        assert (ids + [id])[..|ids|] == ids;
        ids := ids + [id];
      } else if IdsFault(accounts, ledger, ids).None? {
        NoFaultNowhere(accounts, ledger, ids, id);
      }
    }
    assert ps[..|ps|] == ps;
    for i := 0 to |ids|
      invariant IdsFault(accounts, ledger, ids[..i]).None?
    {
      assert ids[..i + 1][..i] == ids[..i];
      if ids[i] !in accounts {
        IdsFaultStays(accounts, ledger, ids, i + 1);
        return Some(LedgerSteps.NotFound);
      }
      if accounts[ids[i]].ledger != ledger {
        IdsFaultStays(accounts, ledger, ids, i + 1);
        return Some(LedgerSteps.ValidationFailed);
      }
    }
    assert ids[..|ids|] == ids;
    return None;
  }

  lemma {:induction false} IdsFaultStays(accounts: map<Id, Account>, ledger: Id, ids: seq<Id>, i: nat)
    requires i <= |ids| && IdsFault(accounts, ledger, ids[..i]).Some?
    ensures IdsFault(accounts, ledger, ids) == IdsFault(accounts, ledger, ids[..i])
    decreases |ids|
  {
    if i == |ids| {
      assert ids[..i] == ids;
    } else {
      assert ids[..|ids| - 1][..i] == ids[..i];
      IdsFaultStays(accounts, ledger, ids[..|ids| - 1], i);
    }
  }

  class Store {
    var ledgers: map<Id, string>
    var accounts: map<Id, Account>
    var txs: seq<Transaction>
    var balances: map<BalanceKey, Balance>
    var holds: seq<HoldRow>
    var keys: map<string, Stored>
    var outbox: seq<Event>

    constructor ()
      ensures Tables() == EMPTY_DB && Inv(Tables())
    {
      ledgers, accounts, txs, balances, holds, keys, outbox := map[], map[], [], map[], [], map[], [];
      new;
      EmptyInv();
    }

    function Tables(): Db
      reads this
    {
      Db(ledgers, accounts, txs, balances, holds, keys, outbox)
    }

    // Commit: every table at once.
    method Install(db: Db)
      modifies this
      ensures Tables() == db
    {
      ledgers, accounts, txs, balances := db.ledgers, db.accounts, db.txs, db.balances;
      holds, keys, outbox := db.holds, db.keys, db.outbox;
    }

    // The stored response for a key, when there is one.
    method Lookup(key: string, hash: Fingerprint) returns (r: Option<Reply<Transaction>>)
      ensures r == if key in keys then Some(LedgerSteps.Replay(keys[key], hash)) else None
    {
      if key !in keys {
        return None;
      }
      if keys[key].hash != hash {
        return Some(LedgerSteps.Refused(LedgerSteps.IdempotencyConflict));
      }
      return Some(LedgerSteps.Done(keys[key].response, true));
    }

    // The retry after a unique violation.
    method LookupAgain(key: string, hash: Fingerprint) returns (r: Reply<Transaction>)
      ensures r == LedgerSteps.Relookup(Tables(), key, hash)
    {
      var stored := Lookup(key, hash);
      r := if stored.Some? then stored.value else LedgerSteps.Refused(LedgerSteps.Conflict);
    }

    method CreateTransaction(t: Transaction) returns (r: Reply<Transaction>)
      requires Inv(Tables()) && LedgerRuns.NewTransaction(t)
      modifies this
      ensures (Tables(), r) == LedgerSteps.CreateTransaction(old(Tables()), t)
      ensures Inv(Tables())
    {
      LedgerRuns.CreateKeeps(Tables(), t);
      BalancedNonNegative(t.postings);
      var hash := TransactionFingerprint(t);
      var stored := Lookup(t.key, hash);
      if stored.Some? {
        return stored.value;
      }
      var attempt := TryCreate(t, hash);
      match attempt {
        case Committed(db, tx) =>
          Install(db);
          r := LedgerSteps.Done(tx, false);
        case UniqueViolation =>
          r := LookupAgain(t.key, hash);
        case Rejected(e) =>
          r := LedgerSteps.Refused(e);
      }
    }

    // The body of the creating transaction, after its lookup missed.
    method TryCreate(t: Transaction, hash: Fingerprint) returns (r: LedgerSteps.Attempt<Transaction>)
      requires TableFits(balances) && NonNegative(t.postings)
      requires hash == TransactionFingerprint(t)
      ensures r == LedgerSteps.CreateBody(Tables(), t)
    {
      if t.ledger !in ledgers {
        return LedgerSteps.Rejected(LedgerSteps.NotFound);
      }
      var fault := CheckAccountsInLedger(accounts, t.ledger, t.postings);
      if fault.Some? {
        return LedgerSteps.Rejected(fault.value);
      }
      if !LedgerSteps.Insertable(Tables(), t) {
        return LedgerSteps.UniqueViolation;
      }
      var events: seq<Event> := [];
      var table: Option<map<BalanceKey, Balance>>;
      if t.status == Posted {
        table := ApplyBalances(balances, t.postings, PostedColumn);
        var postedAt := if t.postedAt.Some? then t.postedAt.value else t.createdAt;
        events := [NewTransactionPosted(t, postedAt)];
      } else {
        table := ApplyBalances(balances, t.postings, PendingColumn);
      }
      if table.None? {
        return LedgerSteps.Rejected(LedgerSteps.Internal);
      }
      var stored := Stored(LedgerSteps.Snapshot(t), hash);
      return LedgerSteps.Committed(
        Db(ledgers, accounts, txs + [t], table.value, holds, keys[t.key := stored], outbox + events), t);
    }

    method PostTransaction(id: Id, now: Time) returns (r: Reply<Transaction>)
      requires Inv(Tables())
      modifies this
      ensures (Tables(), r) == LedgerSteps.PostTransaction(old(Tables()), id, now)
      ensures r.Done? ==> r.value.id == id && r.value.status == Posted
      ensures Inv(Tables())
    {
      LedgerRuns.PostKeeps(Tables(), id, now);
      var db;
      db, r := TryPost(id, now);
      Install(db);
    }

    method TryPost(id: Id, now: Time) returns (db: Db, r: Reply<Transaction>)
      requires TableFits(balances) && Sound(Tables())
      ensures (db, r) == LedgerSteps.PostTransaction(Tables(), id, now)
    {
      db := Tables();
      var i := LedgerSteps.FindTx(txs, id);
      if i.None? {
        return db, LedgerSteps.Refused(LedgerSteps.NotFound);
      }
      var t := txs[i.value];
      if t.status == Posted {
        return db, LedgerSteps.Done(t, false);
      }
      if t.status == Reversed {
        return db, LedgerSteps.Refused(LedgerSteps.InvalidState);
      }
      assert SoundTx(ledgers, accounts, t);
      BalancedNonNegative(t.postings);
      var table := PromoteBalances(balances, t.postings);
      if table.None? {
        return db, LedgerSteps.Refused(LedgerSteps.Internal);
      }
      t := t.(status := Posted, postedAt := Some(now));
      db := db.(txs := txs[i.value := t], balances := table.value, outbox := outbox + [NewTransactionPosted(t, now)]);
      r := LedgerSteps.Done(t, false);
    }

    method ReverseTransaction(id: Id, key: string, reason: string, now: Time, revId: Id, ids: seq<Id>)
      returns (r: Reply<Transaction>)
      requires Inv(Tables())
      modifies this
      ensures (Tables(), r) == LedgerSteps.ReverseTransaction(old(Tables()), id, key, reason, now, revId, ids)
      ensures Inv(Tables())
    {
      LedgerRuns.ReverseKeeps(Tables(), id, key, reason, now, revId, ids);
      var effectiveKey := if key == "" then REVERSAL_PREFIX + IdText(id) else key;
      var hash := ReverseFingerprint(id, reason);
      var stored := Lookup(effectiveKey, hash);
      if stored.Some? {
        return stored.value;
      }
      var attempt := TryReverse(id, key, reason, now, revId, ids);
      match attempt {
        case Committed(db, tx) =>
          Install(db);
          r := LedgerSteps.Done(tx, false);
        case UniqueViolation =>
          r := LookupAgain(effectiveKey, hash);
        case Rejected(e) =>
          r := LedgerSteps.Refused(e);
      }
    }

    // The body of the reversing transaction, after its lookup missed.
    method TryReverse(id: Id, key: string, reason: string, now: Time, revId: Id, ids: seq<Id>)
      returns (r: LedgerSteps.Attempt<Transaction>)
      requires TableFits(balances) && Sound(Tables())
      ensures r == LedgerSteps.ReverseBody(Tables(), id, key, reason, now, revId, ids)
    {
      var i := LedgerSteps.FindTx(txs, id);
      if i.None? {
        return LedgerSteps.Rejected(LedgerSteps.NotFound);
      }
      var original := txs[i.value];
      if ReverseCheck(original).Some? {
        return LedgerSteps.Rejected(LedgerSteps.InvalidState);
      }
      if |ids| != |original.postings| {
        return LedgerSteps.Rejected(LedgerSteps.Internal);
      }
      var rev := BuildReversal(original, key, reason, now, revId, ids);
      if !LedgerSteps.Insertable(Tables(), rev) {
        return LedgerSteps.UniqueViolation;
      }
      assert SoundTx(ledgers, accounts, original);
      LedgerRuns.MirrorNonNegative(original.postings, ids);
      var table := ApplyBalances(balances, rev.postings, PostedColumn);
      if table.None? {
        return LedgerSteps.Rejected(LedgerSteps.Internal);
      }
      var marked := original.(status := Reversed, reversedBy := Some(revId));
      var stored := Stored(LedgerSteps.Snapshot(rev), ReverseFingerprint(id, reason));
      var event := TransactionReversed(id, revId, original.ledger, reason, now);
      return LedgerSteps.Committed(
        Db(ledgers, accounts, txs[i.value := marked] + [rev], table.value, holds,
           keys[rev.key := stored], outbox + [event]),
        rev);
    }

    method BuildReversal(original: Transaction, key: string, reason: string, now: Time, revId: Id, ids: seq<Id>)
      returns (rev: Transaction)
      requires |ids| == |original.postings| && ReverseCheck(original).None?
      ensures rev == LedgerSteps.ReversalRow(original, key, reason, now, revId, ids)
    {
      var built := Reverse(original, revId, ids, now);
      rev := built.value;
      if key != "" {
        rev := rev.(key := key);
      }
      var description := "Reversal of " + original.key;
      if reason != "" {
        description := description + (": " + reason);
      }
      rev := rev.(description := description);
    }

    method CreateHold(h: Hold) returns (r: Reply<Hold>)
      requires Inv(Tables()) && LedgerRuns.NewHold(h)
      modifies this
      ensures (Tables(), r) == LedgerSteps.CreateHold(old(Tables()), h)
      ensures Inv(Tables())
    {
      LedgerRuns.CreateHoldKeeps(Tables(), h);
      var hash := HoldFingerprint(h);
      var found := LedgerSteps.FindHoldKey(holds, h.key);
      if found.Some? {
        return LedgerSteps.ReplayHold(holds[found.value], hash);
      }
      var fault := CheckFunds(h);
      if fault.Some? {
        return LedgerSteps.Refused(fault.value);
      }
      var attempt := TryHold(h, hash);
      match attempt {
        case Committed(db, hold) =>
          Install(db);
          r := LedgerSteps.Done(hold, false);
        case UniqueViolation =>
          r := LedgerSteps.RelookupHold(Tables(), h.key, hash);
        case Rejected(e) =>
          r := LedgerSteps.Refused(e);
      }
    }

    // Account and ledger checks, then the availability test against the
    // locked balance row.
    method CheckFunds(h: Hold) returns (r: Option<AppError>)
      ensures r == LedgerSteps.HoldFault(Tables(), h, Row(balances, HoldKey(h)))
    {
      if h.account !in accounts {
        return Some(LedgerSteps.NotFound);
      }
      var account := accounts[h.account];
      if h.ledger != 0 && h.ledger != account.ledger {
        return Some(LedgerSteps.ValidationFailed);
      }
      var k := HoldKey(h);
      var b := if k in balances then balances[k] else ZERO_BALANCE;
      if b.Available(account.normal) < h.amount.units {
        return Some(LedgerSteps.InsufficientFunds);
      }
      return None;
    }

    method TryHold(h: Hold, hash: Fingerprint) returns (r: LedgerSteps.Attempt<Hold>)
      requires hash == HoldFingerprint(h) && h.account in accounts
      ensures r == LedgerSteps.HoldInsert(Tables(), h)
    {
      if exists i :: 0 <= i < |holds| && (holds[i].hold.id == h.id || holds[i].hold.key == h.key) {
        return LedgerSteps.UniqueViolation;
      }
      var hold := h.(ledger := accounts[h.account].ledger);
      var k := HoldKey(h);
      var b := if k in balances then balances[k] else ZERO_BALANCE;
      b := b.(held := b.held + h.amount.units, version := b.version + 1);
      if !RowFits(b) {
        return LedgerSteps.Rejected(LedgerSteps.Internal);
      }
      var event := HoldCreated(hold.id, hold.ledger, hold.account, hold.key,
                               NewEventMoney(hold.amount), hold.expiresAt, hold.createdAt);
      return LedgerSteps.Committed(
        Db(ledgers, accounts, txs, balances[k := b], holds + [HoldRow(hold, hash)], keys, outbox + [event]),
        hold);
    }

    // The row update, releaseHeld and the event, shared by capture and release.
    method EndHold(i: nat, h: Hold, e: Event) returns (r: Reply<Hold>)
      requires i < |holds|
      modifies this
      ensures (Tables(), r) == LedgerSteps.CloseHold(old(Tables()), i, h, e)
    {
      var k := HoldKey(h);
      if k !in balances {
        return LedgerSteps.Refused(LedgerSteps.Internal);
      }
      var b := balances[k];
      b := b.(held := b.held - h.amount.units, version := b.version + 1);
      if !RowFits(b) {
        return LedgerSteps.Refused(LedgerSteps.Internal);
      }
      holds, balances, outbox := holds[i := holds[i].(hold := h)], balances[k := b], outbox + [e];
      return LedgerSteps.Done(h, false);
    }

    method CaptureHold(id: Id, amount: Option<Amount>, transactionId: Option<Id>, now: Time)
      returns (r: Reply<Hold>)
      requires Inv(Tables())
      modifies this
      ensures (Tables(), r) == LedgerSteps.CaptureHold(old(Tables()), id, amount, transactionId, now)
      ensures r.Done? ==> r.value.id == id && r.value.status == Captured && r.value.capturedTransaction == transactionId
      ensures Inv(Tables())
    {
      LedgerRuns.CaptureKeeps(Tables(), id, amount, transactionId, now);
      var i := LedgerSteps.FindHold(holds, id);
      if i.None? {
        return LedgerSteps.Refused(LedgerSteps.NotFound);
      }
      var h := holds[i.value].hold;
      var fault := CheckCapture(h, amount, transactionId);
      if fault.Some? {
        return LedgerSteps.Refused(fault.value);
      }
      var captured := if amount.Some? then amount.value else h.amount;
      var released: Option<EventMoney> := None;
      if captured.units < h.amount.units {
        released := Some(NewEventMoney(Amount(h.amount.asset, h.amount.units - captured.units)));
      }
      r := EndHold(i.value, h.(status := Captured, capturedTransaction := transactionId),
                   HoldCaptured(h.id, h.ledger, h.account, NewEventMoney(captured), released, transactionId, now));
    }

    method CheckCapture(h: Hold, amount: Option<Amount>, transactionId: Option<Id>) returns (r: Option<AppError>)
      ensures r == LedgerSteps.CaptureFault(Tables(), h, amount, transactionId)
    {
      if h.status != Active {
        return Some(LedgerSteps.InvalidState);
      }
      if amount.Some? {
        if amount.value.asset != h.amount.asset || amount.value.units > h.amount.units {
          return Some(LedgerSteps.ValidationFailed);
        }
      }
      if transactionId.Some? {
        var found := LedgerSteps.FindTx(txs, transactionId.value);
        if found.None? {
          return Some(LedgerSteps.NotFound);
        }
      }
      return None;
    }

    method ReleaseHold(id: Id, now: Time) returns (r: Reply<Hold>)
      requires Inv(Tables())
      modifies this
      ensures (Tables(), r) == LedgerSteps.ReleaseHold(old(Tables()), id, now)
      ensures r.Done? ==> r.value.id == id && r.value.status == Released
      ensures Inv(Tables())
    {
      LedgerRuns.ReleaseKeeps(Tables(), id, now);
      var i := LedgerSteps.FindHold(holds, id);
      if i.None? {
        return LedgerSteps.Refused(LedgerSteps.NotFound);
      }
      var h := holds[i.value].hold;
      if h.status != Active {
        return LedgerSteps.Refused(LedgerSteps.InvalidState);
      }
      r := EndHold(i.value, h.(status := Released),
                   HoldReleased(h.id, h.ledger, h.account, NewEventMoney(h.amount), now));
    }
  }
}
