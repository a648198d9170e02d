// Every state-changing operation of the ledger as an atomic step on its
// tables: the service checks (internal/app/service.go) followed by one
// database transaction (internal/adapters/postgres/store.go) that commits
// everything or changes nothing.
module LedgerSteps {
  import opened Int64
  import opened Wrappers
  import opened Decimal
  import opened Money
  import opened Domain
  import opened Fingerprints
  import opened LedgerTables

  datatype AppError =
    | NotFound
    | ValidationFailed
    | IdempotencyConflict
    | InvalidState
    | InsufficientFunds
    | Conflict
    | BrokenRule
    | Internal

  // What the caller of an operation receives.
  datatype Reply<+T> = Done(value: T, replayed: bool) | Refused(error: AppError)

  // How the body of a database transaction ends: it commits, PostgreSQL
  // reports a unique violation, or it is rolled back with another error.
  datatype Attempt<+T> = Committed(db: Db, value: T) | UniqueViolation | Rejected(error: AppError)

  function FindTx(txs: seq<Transaction>, id: Id): (r: Option<nat>)
    ensures r.Some? ==> r.value < |txs| && txs[r.value].id == id
    ensures r.None? ==> forall i :: 0 <= i < |txs| ==> txs[i].id != id
  {
    if txs == [] then None
    else if txs[|txs| - 1].id == id then Some(|txs| - 1)
    else FindTx(txs[..|txs| - 1], id)
  }

  function FindHold(holds: seq<HoldRow>, id: Id): (r: Option<nat>)
    ensures r.Some? ==> r.value < |holds| && holds[r.value].hold.id == id
    ensures r.None? ==> forall i :: 0 <= i < |holds| ==> holds[i].hold.id != id
  {
    if holds == [] then None
    else if holds[|holds| - 1].hold.id == id then Some(|holds| - 1)
    else FindHold(holds[..|holds| - 1], id)
  }

  function FindHoldKey(holds: seq<HoldRow>, key: string): (r: Option<nat>)
    ensures r.Some? ==> r.value < |holds| && holds[r.value].hold.key == key
    ensures r.None? ==> forall i :: 0 <= i < |holds| ==> holds[i].hold.key != key
  {
    if holds == [] then None
    else if holds[|holds| - 1].hold.key == key then Some(|holds| - 1)
    else FindHoldKey(holds[..|holds| - 1], key)
  }

  // ---- Transactions --------------------------------------------------------------

  function AccountFault(accounts: map<Id, Account>, ledger: Id, account: Id): Option<AppError> {
    if account !in accounts then Some(NotFound)
    else if accounts[account].ledger != ledger then Some(ValidationFailed)
    else None
  }

  // The first posting whose account is unknown or foreign decides the error.
  function AccountsFault(accounts: map<Id, Account>, ledger: Id, ps: seq<Posting>): Option<AppError> {
    if ps == [] then None
    else
      match AccountsFault(accounts, ledger, ps[..|ps| - 1])
      case Some(e) => Some(e)
      case None => AccountFault(accounts, ledger, ps[|ps| - 1].account)
  }

  predicate DistinctIds(ps: seq<Posting>) {
    forall i, j :: 0 <= i < j < |ps| ==> ps[i].id != ps[j].id
  }

  predicate FreshPostings(txs: seq<Transaction>, ps: seq<Posting>) {
    forall t, p, q :: t in txs && p in t.postings && q in ps ==> p.id != q.id
  }

  // The unique constraints met by inserting t: transaction id, idempotency
  // key in both tables, posting ids.
  predicate Insertable(db: Db, t: Transaction) {
    && (forall i :: 0 <= i < |db.txs| ==> db.txs[i].id != t.id && db.txs[i].key != t.key)
    && t.key !in db.keys
    && DistinctIds(t.postings) && FreshPostings(db.txs, t.postings)
  }

  // The response snapshot: JSON drops the provenance flag and empty metadata.
  function Snapshot(t: Transaction): Transaction {
    t.(effectiveAtProvided := false, metadata := if t.metadata == Some(map[]) then None else t.metadata)
  }

  function Replay(s: Stored, hash: Fingerprint): Reply<Transaction> {
    if s.hash != hash then Refused(IdempotencyConflict) else Done(s.response, true)
  }

  // The second lookup, after a unique violation.
  function Relookup(db: Db, key: string, hash: Fingerprint): Reply<Transaction> {
    if key in db.keys then Replay(db.keys[key], hash) else Refused(Conflict)
  }

  function ColumnOf(s: TransactionStatus): Column {
    if s == Posted then PostedColumn else PendingColumn
  }

  function PostedEvents(t: Transaction): seq<Event> {
    if t.status == Posted
    then [NewTransactionPosted(t, if t.postedAt.Some? then t.postedAt.value else t.createdAt)]
    else []
  }

  // The referential checks of CreateTransaction.
  function CreateFault(db: Db, t: Transaction): Option<AppError> {
    if t.ledger !in db.ledgers then Some(NotFound) else AccountsFault(db.accounts, t.ledger, t.postings)
  }

  // Its inserts, updates and event.
  function CreateInsert(db: Db, t: Transaction): Attempt<Transaction> {
    if !Insertable(db, t) then UniqueViolation
    else
      var balances := Applied(db.balances, t.postings, ColumnOf(t.status));
      if !TableFits(balances) then Rejected(Internal)
      else
        Committed(
          db.(txs := db.txs + [t],
              balances := balances,
              keys := db.keys[t.key := Stored(Snapshot(t), TransactionFingerprint(t))],
              outbox := db.outbox + PostedEvents(t)),
          t)
  }

  // CreateTransaction after its lookup found no stored response.
  function CreateBody(db: Db, t: Transaction): Attempt<Transaction> {
    var fault := CreateFault(db, t);
    if fault.Some? then Rejected(fault.value) else CreateInsert(db, t)
  }

  function CreateTransaction(db: Db, t: Transaction): (Db, Reply<Transaction>) {
    var hash := TransactionFingerprint(t);
    if t.key in db.keys then (db, Replay(db.keys[t.key], hash))
    else
      match CreateBody(db, t)
      case Committed(after, tx) => (after, Done(tx, false))
      case UniqueViolation => (db, Relookup(db, t.key, hash))
      case Rejected(e) => (db, Refused(e))
  }

  function PostTransaction(db: Db, id: Id, now: Time): (Db, Reply<Transaction>) {
    match FindTx(db.txs, id)
    case None => (db, Refused(NotFound))
    case Some(i) =>
      var t := db.txs[i];
      if t.status == Posted then (db, Done(t, false))
      else if t.status == Reversed then (db, Refused(InvalidState))
      else
        var balances := Promoted(db.balances, t.postings);
        if !TableFits(balances) then (db, Refused(Internal))
        else
          var posted := t.(status := Posted, postedAt := Some(now));
          (db.(txs := db.txs[i := posted],
               balances := balances,
               outbox := db.outbox + [NewTransactionPosted(posted, now)]),
           Done(posted, false))
  }

  // The reversal row: domain.Reverse plus the key and description of the request.
  function ReversalRow(original: Transaction, key: string, reason: string, now: Time, id: Id, ids: seq<Id>): Transaction
    requires |ids| == |original.postings|
  {
    ReversalOf(original, id, ids, now).(
      key := EffectiveKey(original.id, key),
      description := "Reversal of " + original.key + if reason == "" then "" else ": " + reason)
  }

  function EffectiveKey(id: Id, key: string): string {
    if key == "" then REVERSAL_PREFIX + IdText(id) else key
  }

  // The inserts, updates and event of a reversal of row i, read as original.
  function ReverseInsert(db: Db, i: nat, original: Transaction, key: string, reason: string, now: Time, revId: Id, ids: seq<Id>): Attempt<Transaction>
    requires i < |db.txs| && |ids| == |original.postings|
  {
    var rev := ReversalRow(original, key, reason, now, revId, ids);
    var balances := Applied(db.balances, rev.postings, PostedColumn);
    if !Insertable(db, rev) then UniqueViolation
    else if !TableFits(balances) then Rejected(Internal)
    else
      Committed(
        db.(txs := db.txs[i := original.(status := Reversed, reversedBy := Some(revId))] + [rev],
            balances := balances,
            keys := db.keys[rev.key := Stored(Snapshot(rev), ReverseFingerprint(original.id, reason))],
            outbox := db.outbox + [TransactionReversed(original.id, revId, original.ledger, reason, now)]),
        rev)
  }

  // Why a loaded original cannot be reversed. Running out of posting ids
  // stands for a failing id generator.
  function ReversalFault(original: Transaction, ids: seq<Id>): Option<AppError> {
    if ReverseCheck(original).Some? then Some(InvalidState)
    else if |ids| != |original.postings| then Some(Internal)
    else None
  }

  // ReverseTransaction after its lookup found no stored response.
  function ReverseBody(db: Db, id: Id, key: string, reason: string, now: Time, revId: Id, ids: seq<Id>): Attempt<Transaction> {
    match FindTx(db.txs, id)
    case None => Rejected(NotFound)
    case Some(i) =>
      var fault := ReversalFault(db.txs[i], ids);
      if fault.Some? then Rejected(fault.value)
      else ReverseInsert(db, i, db.txs[i], key, reason, now, revId, ids)
  }

  function ReverseTransaction(db: Db, id: Id, key: string, reason: string, now: Time, revId: Id, ids: seq<Id>): (Db, Reply<Transaction>) {
    var effective := EffectiveKey(id, key);
    var hash := ReverseFingerprint(id, reason);
    if effective in db.keys then (db, Replay(db.keys[effective], hash))
    else
      match ReverseBody(db, id, key, reason, now, revId, ids)
      case Committed(after, tx) => (after, Done(tx, false))
      case UniqueViolation => (db, Relookup(db, effective, hash))
      case Rejected(e) => (db, Refused(e))
  }

  // ---- Holds -----------------------------------------------------------------------

  function ReplayHold(row: HoldRow, hash: Fingerprint): Reply<Hold> {
    if row.hash != hash then Refused(IdempotencyConflict) else Done(row.hold, true)
  }

  function RelookupHold(db: Db, key: string, hash: Fingerprint): Reply<Hold> {
    match FindHoldKey(db.holds, key)
    case Some(i) => ReplayHold(db.holds[i], hash)
    case None => Refused(Conflict)
  }

  // The part of CreateHold before the insert: account, ledger and, against
  // the balance row it has read under lock, funds.
  function HoldFault(db: Db, h: Hold, row: Balance): Option<AppError> {
    if h.account !in db.accounts then Some(NotFound)
    else
      var account := db.accounts[h.account];
      if h.ledger != 0 && h.ledger != account.ledger then Some(ValidationFailed)
      else if row.Available(account.normal) < h.amount.units then Some(InsufficientFunds)
      else None
  }

  // The insert, the balance update and the event.
  function HoldInsert(db: Db, h: Hold): Attempt<Hold> {
    if h.account !in db.accounts then Rejected(NotFound)
    else if exists i :: 0 <= i < |db.holds| && (db.holds[i].hold.id == h.id || db.holds[i].hold.key == h.key)
    then UniqueViolation
    else
      var hold := h.(ledger := db.accounts[h.account].ledger);
      var balances := Reserve(db.balances, HoldKey(h), h.amount.units);
      if !RowFits(balances[HoldKey(h)]) then Rejected(Internal)
      else
        Committed(
          db.(holds := db.holds + [HoldRow(hold, HoldFingerprint(h))],
              balances := balances,
              outbox := db.outbox + [HoldCreated(hold.id, hold.ledger, hold.account, hold.key,
                                                 NewEventMoney(hold.amount), hold.expiresAt, hold.createdAt)]),
          hold)
  }

  function CreateHold(db: Db, h: Hold): (Db, Reply<Hold>) {
    var hash := HoldFingerprint(h);
    match FindHoldKey(db.holds, h.key)
    case Some(i) => (db, ReplayHold(db.holds[i], hash))
    case None =>
      match HoldFault(db, h, Row(db.balances, HoldKey(h)))
      case Some(e) => (db, Refused(e))
      case None =>
        match HoldInsert(db, h)
        case Committed(after, hold) => (after, Done(hold, false))
        case UniqueViolation => (db, RelookupHold(db, h.key, hash))
        case Rejected(e) => (db, Refused(e))
  }

  // Ends an active hold: the status change, the freed funds and the event.
  function CloseHold(db: Db, i: nat, h: Hold, e: Event): (Db, Reply<Hold>)
    requires i < |db.holds|
  {
    var k := HoldKey(h);
    if k !in db.balances then (db, Refused(Internal))
    else
      var balances := Reserve(db.balances, k, -h.amount.units);
      if !RowFits(balances[k]) then (db, Refused(Internal))
      else
        (db.(holds := db.holds[i := db.holds[i].(hold := h)], balances := balances, outbox := db.outbox + [e]),
         Done(h, false))
  }

  function CaptureFault(db: Db, h: Hold, amount: Option<Amount>, transactionId: Option<Id>): Option<AppError> {
    if h.status != Active then Some(InvalidState)
    else if amount.Some? && amount.value.asset != h.amount.asset then Some(ValidationFailed)
    else if amount.Some? && amount.value.units > h.amount.units then Some(ValidationFailed)
    else if transactionId.Some? && FindTx(db.txs, transactionId.value).None? then Some(NotFound)
    else None
  }

  function CapturedEvent(h: Hold, amount: Option<Amount>, transactionId: Option<Id>, now: Time): Event {
    var captured := if amount.Some? then amount.value else h.amount;
    HoldCaptured(
      h.id, h.ledger, h.account, NewEventMoney(captured),
      if captured.units < h.amount.units
      then Some(NewEventMoney(Amount(h.amount.asset, h.amount.units - captured.units)))
      else None,
      transactionId, now)
  }

  function CaptureHold(db: Db, id: Id, amount: Option<Amount>, transactionId: Option<Id>, now: Time): (Db, Reply<Hold>) {
    match FindHold(db.holds, id)
    case None => (db, Refused(NotFound))
    case Some(i) =>
      var h := db.holds[i].hold;
      var fault := CaptureFault(db, h, amount, transactionId);
      if fault.Some? then (db, Refused(fault.value))
      else
        CloseHold(db, i, h.(status := Captured, capturedTransaction := transactionId),
                  CapturedEvent(h, amount, transactionId, now))
  }

  function ReleaseHold(db: Db, id: Id, now: Time): (Db, Reply<Hold>) {
    match FindHold(db.holds, id)
    case None => (db, Refused(NotFound))
    case Some(i) =>
      var h := db.holds[i].hold;
      if h.status != Active then (db, Refused(InvalidState))
      else
        CloseHold(db, i, h.(status := Released),
                  HoldReleased(h.id, h.ledger, h.account, NewEventMoney(h.amount), now))
  }

  // ---- Ledgers and accounts ----------------------------------------------------------

  function CreateLedger(db: Db, id: Id, name: string): (Db, Reply<()>) {
    if id in db.ledgers || name in db.ledgers.Values then (db, Refused(Conflict))
    else (db.(ledgers := db.ledgers[id := name]), Done((), false))
  }

  function CreateAccount(db: Db, id: Id, a: Account): (Db, Reply<()>) {
    if a.ledger !in db.ledgers then (db, Refused(NotFound))
    else if id in db.accounts
            || exists x :: x in db.accounts && db.accounts[x].ledger == a.ledger && db.accounts[x].path == a.path
    then (db, Refused(Conflict))
    else (db.(accounts := db.accounts[id := a]), Done((), false))
  }

  // ---- The service layer ----------------------------------------------------------------

  // A create request; ids and clock readings drawn by the service come with it.
  datatype CreateRequest = CreateRequest(
    id: Id,
    ledger: Id,
    key: string,
    reference: string,
    description: string,
    status: Option<TransactionStatus>,
    effectiveAt: Option<Time>,
    metadata: Option<Metadata>,
    postings: seq<Posting>,
    now: Time)

  function RequestedStatus(r: CreateRequest): TransactionStatus {
    if r.status.Some? then r.status.value else Posted
  }

  function BuildTransaction(r: CreateRequest): Transaction {
    var status := RequestedStatus(r);
    Transaction(
      id := r.id,
      ledger := r.ledger,
      reference := r.reference,
      description := r.description,
      key := r.key,
      status := status,
      effectiveAt := if r.effectiveAt.Some? then r.effectiveAt.value else r.now,
      effectiveAtProvided := r.effectiveAt.Some?,
      postedAt := if status == Posted then Some(r.now) else None,
      reversedBy := None,
      reverses := None,
      metadata := r.metadata,
      postings := r.postings,
      createdAt := r.now)
  }

  predicate ValidKey(key: string) {
    1 <= |key| <= 255
  }

  ghost function CreateRequestFault(r: CreateRequest): Option<AppError> {
    if !ValidKey(r.key) || r.ledger == 0 || RequestedStatus(r) == Reversed || |r.postings| > 1000
    then Some(ValidationFailed)
    else if !Balanced(r.postings) then Some(BrokenRule)
    else None
  }

  ghost function ServiceCreate(db: Db, r: CreateRequest): (Db, Reply<Transaction>) {
    var fault := CreateRequestFault(r);
    if fault.Some? then (db, Refused(fault.value)) else CreateTransaction(db, BuildTransaction(r))
  }

  ghost function ServiceReverse(db: Db, id: Id, key: string, reason: string, now: Time, revId: Id, ids: seq<Id>): (Db, Reply<Transaction>) {
    if |key| > 255 || |reason| > 1024 then (db, Refused(ValidationFailed))
    else ReverseTransaction(db, id, key, reason, now, revId, ids)
  }

  const DEFAULT_HOLD_TTL: Time := 7 * 24 * 3600 * 1_000_000

  datatype HoldRequest = HoldRequest(
    id: Id,
    account: Id,
    ledger: Id,
    key: string,
    amount: Amount,
    expiresAt: Option<Time>,
    metadata: Option<Metadata>,
    now: Time)

  function BuildHold(r: HoldRequest): Hold {
    Hold(
      id := r.id,
      ledger := r.ledger,
      account := r.account,
      key := r.key,
      amount := r.amount,
      status := Active,
      expiresAt := if r.expiresAt.Some? then r.expiresAt.value else r.now + DEFAULT_HOLD_TTL,
      expiresAtProvided := r.expiresAt.Some?,
      capturedTransaction := None,
      metadata := r.metadata,
      createdAt := r.now)
  }

  ghost predicate HoldRequestOk(r: HoldRequest) {
    ValidKey(r.key) && r.account != 0 && ValidAsset(r.amount.asset)
    && 0 < r.amount.units <= MAX_INT64
    && (r.expiresAt.Some? ==> r.expiresAt.value > r.now)
  }

  ghost function ServiceHold(db: Db, r: HoldRequest): (Db, Reply<Hold>) {
    if !HoldRequestOk(r) then (db, Refused(ValidationFailed)) else CreateHold(db, BuildHold(r))
  }

  ghost function ServiceCapture(db: Db, id: Id, amount: Option<Amount>, transactionId: Option<Id>, now: Time): (Db, Reply<Hold>) {
    if amount.Some? && !(ValidAsset(amount.value.asset) && 0 < amount.value.units <= MAX_INT64)
    then (db, Refused(ValidationFailed))
    else CaptureHold(db, id, amount, transactionId, now)
  }

  // ---- Runs --------------------------------------------------------------------------------

  datatype Command =
    | NewLedger(id: Id, name: string)
    | NewAccount(id: Id, account: Account)
    | Create(request: CreateRequest)
    | Post(id: Id, now: Time)
    | ReverseOf(id: Id, key: string, reason: string, now: Time, revId: Id, ids: seq<Id>)
    | Reservation(hold: HoldRequest)
    | Capture(id: Id, amount: Option<Amount>, transactionId: Option<Id>, now: Time)
    | Release(id: Id, now: Time)

  ghost function Step(db: Db, c: Command): Db {
    match c
    case NewLedger(id, name) => CreateLedger(db, id, name).0
    case NewAccount(id, account) => CreateAccount(db, id, account).0
    case Create(request) => ServiceCreate(db, request).0
    case Post(id, now) => PostTransaction(db, id, now).0
    case ReverseOf(id, key, reason, now, revId, ids) => ServiceReverse(db, id, key, reason, now, revId, ids).0
    case Reservation(request) => ServiceHold(db, request).0
    case Capture(id, amount, transactionId, now) => ServiceCapture(db, id, amount, transactionId, now).0
    case Release(id, now) => ReleaseHold(db, id, now).0
  }

  ghost function Run(db: Db, cs: seq<Command>): Db {
    if cs == [] then db else Step(Run(db, cs[..|cs| - 1]), cs[|cs| - 1])
  }
}
