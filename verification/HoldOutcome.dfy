// What the operations on holds do and reply, in terms of requests, rows and
// columns alone (services/ledger-core/internal/adapters/postgres/
// store.go:1017-1239, internal/app/service.go:308-381).
module HoldOutcomes {
  import opened Int64
  import opened Wrappers
  import opened Decimal
  import opened Money
  import opened Domain
  import opened Fingerprints
  import opened LedgerTables
  import opened LedgerSteps
  import opened LedgerInvariant
  import opened LedgerRuns

  // ---- Balance rows ------------------------------------------------------------------

  // The held column of one row grew by units, one write.
  ghost predicate HeldBy(b: map<BalanceKey, Balance>, after: map<BalanceKey, Balance>, k: BalanceKey, units: int) {
    && after.Keys == b.Keys + {k}
    && (forall x :: x in b && x != k ==> after[x] == b[x])
    && k in after && after[k].held == Row(b, k).held + units && after[k].version == Row(b, k).version + 1
    && after[k].postedDebits == Row(b, k).postedDebits && after[k].postedCredits == Row(b, k).postedCredits
    && after[k].pendingDebits == Row(b, k).pendingDebits && after[k].pendingCredits == Row(b, k).pendingCredits
  }

  // What an account of this kind has posted to a row and not reserved.
  function Unreserved(r: Balance, nb: NormalBalance): int {
    match nb
    case NormalDebit => r.postedDebits - r.postedCredits - r.held
    case NormalCredit => r.postedCredits - r.postedDebits - r.held
  }

  predicate OnlyHold(db: Db, after: Db) {
    after.ledgers == db.ledgers && after.accounts == db.accounts && after.txs == db.txs && after.keys == db.keys
  }

  // ---- Reserving ---------------------------------------------------------------------

  predicate AssetOk(asset: string) {
    && 1 <= |asset| <= 12
    && forall i :: 0 <= i < |asset| ==> 'A' <= asset[i] <= 'Z' || '0' <= asset[i] <= '9'
  }

  predicate HoldOk(r: HoldRequest) {
    && 1 <= |r.key| <= 255 && r.account != 0 && AssetOk(r.amount.asset) && 0 < r.amount.units <= MAX_INT64
    && (r.expiresAt.Some? ==> r.now < r.expiresAt.value)
  }

  // The stored row of an accepted request, column by column.
  predicate HeldFrom(r: HoldRequest, ledger: Id, h: Hold) {
    && h.id == r.id && h.ledger == ledger && h.account == r.account && h.key == r.key && h.amount == r.amount
    && h.status == Active && h.capturedTransaction == None && h.metadata == r.metadata && h.createdAt == r.now
    && h.expiresAtProvided == r.expiresAt.Some?
    && h.expiresAt == (if r.expiresAt.Some? then r.expiresAt.value else r.now + 7 * 24 * 3600 * 1_000_000)
  }

  ghost predicate HoldDone(db: Db, r: HoldRequest, after: Db, reply: Reply<Hold>) {
    && r.account in db.accounts && reply.Done? && !reply.replayed
    && HeldFrom(r, db.accounts[r.account].ledger, reply.value)
    && |after.holds| == |db.holds| + 1 && db.holds <= after.holds && after.holds[|db.holds|].hold == reply.value
    && HeldBy(db.balances, after.balances, BalanceKey(r.account, r.amount.asset), r.amount.units)
    && after.outbox == db.outbox + [HoldCreated(r.id, db.accounts[r.account].ledger, r.account, r.key,
                                                EventMoney(r.amount.asset, IntText(r.amount.units)),
                                                reply.value.expiresAt, r.now)]
    && OnlyHold(db, after)
  }

  // The errors of a reservation whose key is not taken, in the order in which
  // they are found. The new held total always fits; only the version counter
  // of the row can run out.
  ghost predicate HoldRefused(db: Db, r: HoldRequest, e: AppError) {
    var row := Row(db.balances, BalanceKey(r.account, r.amount.asset));
    if !HoldOk(r) then e == ValidationFailed
    else if r.account !in db.accounts then e == NotFound
    else if r.ledger != 0 && r.ledger != db.accounts[r.account].ledger then e == ValidationFailed
    else if Unreserved(row, db.accounts[r.account].normal) < r.amount.units then e == InsufficientFunds
    else if exists i :: 0 <= i < |db.holds| && db.holds[i].hold.id == r.id then e == Conflict
    else row.version == MAX_INT64 && e == Internal
  }

  lemma RequestOkExact(r: HoldRequest)
    ensures HoldRequestOk(r) <==> HoldOk(r)
  {
  }

  lemma UnreservedExact(db: Db, k: BalanceKey)
    requires Inv(db) && k.account in db.accounts
    ensures var nb := db.accounts[k.account].normal;
            Row(db.balances, k).Available(nb) == Unreserved(Row(db.balances, k), nb)
  {
    RowCoversHeld(db, k);
    CoveredUnreserved(Row(db.balances, k), db.accounts[k.account].normal);
  }

  lemma CoveredUnreserved(r: Balance, nb: NormalBalance)
    requires CoversHeld(r, nb)
    ensures r.Available(nb) == Unreserved(r, nb)
  {
    FreeUnwrapped(r, nb);
  }

  // Funds that suffice also fit: a row never holds more than it ever posted.
  lemma HeldFits(r: Balance, nb: NormalBalance, units: int)
    requires CoversHeld(r, nb) && 0 <= units <= Unreserved(r, nb)
    ensures RowFits(r.(held := r.held + units, version := r.version + 1)) <==> r.version < MAX_INT64
  {
  }

  lemma HoldInsertExact(db: Db, h: Hold)
    requires Inv(db) && h.account in db.accounts && 0 < h.amount.units
    requires forall i :: 0 <= i < |db.holds| ==> db.holds[i].hold.key != h.key
    requires h.amount.units <= Unreserved(Row(db.balances, HoldKey(h)), db.accounts[h.account].normal)
    ensures var a := HoldInsert(db, h);
            if exists i :: 0 <= i < |db.holds| && db.holds[i].hold.id == h.id then a.UniqueViolation?
            else if Row(db.balances, HoldKey(h)).version == MAX_INT64 then a == Rejected(Internal)
            else a.Committed?
  {
    var r := Row(db.balances, HoldKey(h));
    RowCoversHeld(db, HoldKey(h));
    HeldFits(r, db.accounts[h.account].normal, h.amount.units);
    assert Fits(r.version);
  }

  lemma HoldWrites(db: Db, r: HoldRequest)
    requires r.account in db.accounts && HoldInsert(db, BuildHold(r)).Committed?
    ensures var a := HoldInsert(db, BuildHold(r)); HoldDone(db, r, a.db, Done(a.value, false))
  {
  }

  lemma HoldReplies(db: Db, h: Hold)
    requires forall i :: 0 <= i < |db.holds| ==> db.holds[i].hold.key != h.key
    ensures CreateHold(db, h)
         == match HoldFault(db, h, Row(db.balances, HoldKey(h)))
            case Some(e) => (db, Refused(e))
            case None =>
              match HoldInsert(db, h)
              case Committed(after, hold) => (after, Done(hold, false))
              case UniqueViolation => (db, Refused(Conflict))
              case Rejected(e) => (db, Refused(e))
  {
    assert FindHoldKey(db.holds, h.key).None?;
  }

  lemma FundsExact(db: Db, r: HoldRequest)
    requires Inv(db)
    ensures var row := Row(db.balances, BalanceKey(r.account, r.amount.asset));
            HoldFault(db, BuildHold(r), row)
            == if r.account !in db.accounts then Some(NotFound)
               else if r.ledger != 0 && r.ledger != db.accounts[r.account].ledger then Some(ValidationFailed)
               else if Unreserved(row, db.accounts[r.account].normal) < r.amount.units then Some(InsufficientFunds)
               else None
  {
    if r.account in db.accounts {
      UnreservedExact(db, BalanceKey(r.account, r.amount.asset));
    }
  }

  // A reservation with an unused key is refused, with the first error that
  // applies, or carried out in full. It is carried out if and only if the
  // request is valid, the account is known and in the ledger named, if one is,
  // at least the amount is unreserved, the id is new and the row can still
  // count versions.
  lemma HoldExact(db: Db, r: HoldRequest)
    requires Inv(db) && forall i :: 0 <= i < |db.holds| ==> db.holds[i].hold.key != r.key
    ensures var (after, reply) := ServiceHold(db, r);
            || (reply.Refused? && after == db && HoldRefused(db, r, reply.error))
            || HoldDone(db, r, after, reply)
    ensures Step(db, Reservation(r)) != db <==>
              && HoldOk(r) && r.account in db.accounts && (r.ledger == 0 || r.ledger == db.accounts[r.account].ledger)
              && var row := Row(db.balances, BalanceKey(r.account, r.amount.asset));
              && r.amount.units <= Unreserved(row, db.accounts[r.account].normal)
              && (forall i :: 0 <= i < |db.holds| ==> db.holds[i].hold.id != r.id) && row.version < MAX_INT64
  {
    RequestOkExact(r);
    if HoldOk(r) {
      var h := BuildHold(r);
      HoldReplies(db, h);
      FundsExact(db, r);
      assert Fits(Row(db.balances, HoldKey(h)).version);
      if HoldFault(db, h, Row(db.balances, HoldKey(h))).None? {
        HoldInsertExact(db, h);
        if HoldInsert(db, h).Committed? {
          HoldWrites(db, r);
        }
      }
    }
  }

  // ---- Ending a hold -------------------------------------------------------------------

  // The hold in row i was replaced by h, and its funds are free again.
  ghost predicate EndDone(db: Db, i: nat, h: Hold, after: Db, e: Event)
    requires i < |db.holds|
  {
    && after.holds == db.holds[i := db.holds[i].(hold := h)]
    && HeldBy(db.balances, after.balances, BalanceKey(h.account, h.amount.asset), -h.amount.units)
    && after.outbox == db.outbox + [e] && OnlyHold(db, after)
  }

  lemma HoldFoundAt(holds: seq<HoldRow>, i: nat)
    requires i < |holds| && forall a, b :: 0 <= a < b < |holds| ==> holds[a].hold.id != holds[b].hold.id
    ensures FindHold(holds, holds[i].hold.id) == Some(i)
  {
  }

  lemma EndExact(db: Db, i: nat, h: Hold, e: Event)
    requires Inv(db) && i < |db.holds| && db.holds[i].hold.status == Active
    requires h.account == db.holds[i].hold.account && h.amount == db.holds[i].hold.amount
    ensures var k := BalanceKey(h.account, h.amount.asset);
            var (after, reply) := CloseHold(db, i, h, e);
            && k in db.balances
            && if db.balances[k].version < MAX_INT64 then reply == Done(h, false) && EndDone(db, i, h, after, e)
               else after == db && reply == Refused(Internal)
  {
    CloseSucceeds(db, i, h, e);
    assert RowFits(db.balances[BalanceKey(h.account, h.amount.asset)]);
  }

  // What a capture of row i announces: the part taken and, if there is one,
  // the part given back.
  function CaptureEvent(h: Hold, amount: Option<Amount>, transactionId: Option<Id>, now: Time): Event {
    var units := if amount.Some? then amount.value.units else h.amount.units;
    HoldCaptured(h.id, h.ledger, h.account, EventMoney(h.amount.asset, IntText(units)),
                 if units == h.amount.units then None else Some(EventMoney(h.amount.asset, IntText(h.amount.units - units))),
                 transactionId, now)
  }

  predicate CaptureOk(amount: Option<Amount>) {
    amount.Some? ==> AssetOk(amount.value.asset) && 0 < amount.value.units <= MAX_INT64
  }

  // The amount asked for is part of the hold, and the transaction is known.
  ghost predicate CaptureFits(h: Hold, amount: Option<Amount>) {
    amount.Some? ==> amount.value.asset == h.amount.asset && amount.value.units <= h.amount.units
  }

  ghost predicate KnownTransaction(db: Db, id: Id) {
    exists i :: 0 <= i < |db.txs| && db.txs[i].id == id
  }

  // A capture with a valid amount is decided by the hold's status, the amount
  // and the transaction named: it marks the hold captured, links the
  // transaction and frees all of the hold's funds.
  lemma CaptureExact(db: Db, i: nat, amount: Option<Amount>, transactionId: Option<Id>, now: Time)
    requires Inv(db) && i < |db.holds| && CaptureOk(amount)
    ensures var h := db.holds[i].hold;
            var captured := h.(status := Captured, capturedTransaction := transactionId);
            var (after, reply) := ServiceCapture(db, h.id, amount, transactionId, now);
            if h.status != Active then after == db && reply == Refused(InvalidState)
            else if !CaptureFits(h, amount) then after == db && reply == Refused(ValidationFailed)
            else if transactionId.Some? && !KnownTransaction(db, transactionId.value) then after == db && reply == Refused(NotFound)
            else if Row(db.balances, BalanceKey(h.account, h.amount.asset)).version < MAX_INT64
            then reply == Done(captured, false) && EndDone(db, i, captured, after, CaptureEvent(h, amount, transactionId, now))
            else after == db && reply == Refused(Internal)
  {
    var h := db.holds[i].hold;
    HoldFoundAt(db.holds, i);
    CaptureOkExact(amount);
    CaptureFaultExact(db, h, amount, transactionId);
    if CaptureFault(db, h, amount, transactionId).None? {
      CaptureAnnounces(h, amount, transactionId, now);
      EndExact(db, i, h.(status := Captured, capturedTransaction := transactionId), CaptureEvent(h, amount, transactionId, now));
    }
  }

  lemma CaptureOkExact(amount: Option<Amount>)
    ensures CaptureOk(amount) <==> (amount.Some? ==> ValidAsset(amount.value.asset) && 0 < amount.value.units <= MAX_INT64)
  {
  }

  lemma CaptureFaultExact(db: Db, h: Hold, amount: Option<Amount>, transactionId: Option<Id>)
    ensures CaptureFault(db, h, amount, transactionId)
         == if h.status != Active then Some(InvalidState)
            else if !CaptureFits(h, amount) then Some(ValidationFailed)
            else if transactionId.Some? && !KnownTransaction(db, transactionId.value) then Some(NotFound)
            else None
  {
  }

  lemma CaptureAnnounces(h: Hold, amount: Option<Amount>, transactionId: Option<Id>, now: Time)
    requires CaptureFits(h, amount)
    ensures CapturedEvent(h, amount, transactionId, now) == CaptureEvent(h, amount, transactionId, now)
  {
  }

  lemma CaptureInvalid(db: Db, id: Id, amount: Option<Amount>, transactionId: Option<Id>, now: Time)
    requires !CaptureOk(amount) || forall i :: 0 <= i < |db.holds| ==> db.holds[i].hold.id != id
    ensures ServiceCapture(db, id, amount, transactionId, now)
         == (db, Refused(if CaptureOk(amount) then NotFound else ValidationFailed))
  {
    CaptureOkExact(amount);
  }

  // A release is decided by the hold's status alone.
  lemma ReleaseExact(db: Db, i: nat, now: Time)
    requires Inv(db) && i < |db.holds|
    ensures var h := db.holds[i].hold;
            var released := h.(status := Released);
            var (after, reply) := ReleaseHold(db, h.id, now);
            if h.status != Active then after == db && reply == Refused(InvalidState)
            else if Row(db.balances, BalanceKey(h.account, h.amount.asset)).version < MAX_INT64
            then && reply == Done(released, false)
                 && EndDone(db, i, released, after,
                            HoldReleased(h.id, h.ledger, h.account, EventMoney(h.amount.asset, IntText(h.amount.units)), now))
            else after == db && reply == Refused(Internal)
  {
    var h := db.holds[i].hold;
    HoldFoundAt(db.holds, i);
    if h.status == Active {
      EndExact(db, i, h.(status := Released),
               HoldReleased(h.id, h.ledger, h.account, EventMoney(h.amount.asset, IntText(h.amount.units)), now));
    }
  }

  lemma ReleaseUnknown(db: Db, id: Id, now: Time)
    requires forall i :: 0 <= i < |db.holds| ==> db.holds[i].hold.id != id
    ensures ReleaseHold(db, id, now) == (db, Refused(NotFound))
  {
  }
}
