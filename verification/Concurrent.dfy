// Concurrent requests against one tenant's tables. A keyed request runs in
// the pieces between which others can get in: its lookup, its checks and row
// lock, its commit, and the second lookup after a unique violation. Every
// interleaving of the pieces is a schedule
// (services/ledger-core/internal/adapters/postgres/store.go:657-1119).
module Concurrent {
  import opened Wrappers
  import opened Domain
  import opened Fingerprints
  import opened LedgerTables
  import opened LedgerSteps
  import opened LedgerInvariant
  import opened LedgerRuns
  import opened LedgerHistory

  // ---- Requests in flight -----------------------------------------------------------

  datatype Outcome =
    | TxReply(reply: Reply<Transaction>)    // to a create or a reversal
    | HoldReply(answer: Reply<Hold>)        // to a reservation
    | PostReply(posted: Reply<Transaction>)
    | CloseReply(closed: Reply<Hold>)       // to a capture or a release
    | TableReply(made: Reply<()>)           // to a new ledger or account
    | Aborted

  datatype Phase =
    | Idle
    | Missed                                             // the lookup found nothing
    | Checked                                            // ledger and accounts are fine
    | OriginalLocked(row: nat, original: Transaction)    // SELECT ... FOR UPDATE on the original
    | FundsLocked(balance: Balance)                      // SELECT ... FOR UPDATE on the balance row
    | Violated                                           // rolled back by a unique violation
    | Finished(outcome: Outcome)

  datatype System = System(db: Db, requests: seq<Command>, phases: seq<Phase>)

  predicate Shaped(s: System) {
    |s.phases| == |s.requests|
  }

  predicate Keyed(c: Command) {
    c.Create? || c.ReverseOf?
  }

  function RequestKey(c: Command): string
    requires Keyed(c)
  {
    if c.Create? then c.request.key else EffectiveKey(c.id, c.key)
  }

  function RequestHash(c: Command): Fingerprint
    requires Keyed(c)
  {
    if c.Create? then TransactionFingerprint(BuildTransaction(c.request)) else ReverseFingerprint(c.id, c.reason)
  }

  // The service's own checks, before any database transaction.
  ghost function ServiceFault(c: Command): Option<AppError> {
    match c
    case Create(request) => CreateRequestFault(request)
    case ReverseOf(id, key, reason, now, revId, ids) =>
      if |key| > 255 || |reason| > 1024 then Some(ValidationFailed) else None
    case Reservation(request) => if HoldRequestOk(request) then None else Some(ValidationFailed)
    case _ => None
  }

  // What the atomic step of a request replies.
  ghost function StepReply(db: Db, c: Command): Outcome {
    match c
    case NewLedger(id, name) => TableReply(CreateLedger(db, id, name).1)
    case NewAccount(id, account) => TableReply(CreateAccount(db, id, account).1)
    case Create(request) => TxReply(ServiceCreate(db, request).1)
    case Post(id, now) => PostReply(PostTransaction(db, id, now).1)
    case ReverseOf(id, key, reason, now, revId, ids) => TxReply(ServiceReverse(db, id, key, reason, now, revId, ids).1)
    case Reservation(request) => HoldReply(ServiceHold(db, request).1)
    case Capture(id, amount, transactionId, now) => CloseReply(ServiceCapture(db, id, amount, transactionId, now).1)
    case Release(id, now) => CloseReply(ReleaseHold(db, id, now).1)
  }

  // The kind of reply a request can get.
  predicate Fitting(c: Command, o: Outcome) {
    match o
    case TxReply(_) => Keyed(c)
    case HoldReply(_) => c.Reservation?
    case PostReply(_) => c.Post?
    case CloseReply(_) => c.Capture? || c.Release?
    case TableReply(_) => c.NewLedger? || c.NewAccount?
    case Aborted => true
  }

  function FundsKey(c: Command): BalanceKey
    requires c.Reservation?
  {
    HoldKey(BuildHold(c.hold))
  }

  // ---- Row locks ------------------------------------------------------------------------

  predicate HoldsFunds(s: System, q: int, k: BalanceKey)
    requires Shaped(s)
  {
    0 <= q < |s.phases| && s.phases[q].FundsLocked? && s.requests[q].Reservation? && FundsKey(s.requests[q]) == k
  }

  predicate HoldsOriginal(s: System, q: int, i: nat)
    requires Shaped(s)
  {
    0 <= q < |s.phases| && s.phases[q].OriginalLocked? && s.phases[q].row == i
  }

  // The row request q has locked is the same in after.
  predicate Undisturbed(s: System, q: int, after: Db)
    requires Shaped(s) && 0 <= q < |s.phases|
  {
    match s.phases[q]
    case FundsLocked(_) =>
      s.requests[q].Reservation? ==>
        var k := FundsKey(s.requests[q]);
        Row(after.balances, k) == Row(s.db.balances, k)
    case OriginalLocked(i, _) =>
      i < |s.db.txs| ==> i < |after.txs| && after.txs[i] == s.db.txs[i]
    case _ => true
  }

  // A writer waits for the locks others hold on the rows it changes.
  predicate MayWrite(s: System, p: nat, after: Db)
    requires Shaped(s)
  {
    forall q :: 0 <= q < |s.phases| && q != p ==> Undisturbed(s, q, after)
  }

  predicate FundsFree(s: System, p: nat, k: BalanceKey)
    requires Shaped(s)
  {
    forall q :: 0 <= q < |s.phases| && q != p ==> !HoldsFunds(s, q, k)
  }

  predicate OriginalFree(s: System, p: nat, i: nat)
    requires Shaped(s)
  {
    forall q :: 0 <= q < |s.phases| && q != p ==> !HoldsOriginal(s, q, i)
  }

  // ---- The pieces of a request --------------------------------------------------------------

  ghost function LookupPhase(db: Db, c: Command): Phase
    requires Keyed(c)
  {
    if RequestKey(c) in db.keys then Finished(TxReply(Replay(db.keys[RequestKey(c)], RequestHash(c)))) else Missed
  }

  ghost function HoldLookupPhase(db: Db, h: Hold): Phase {
    match FindHoldKey(db.holds, h.key)
    case Some(i) => Finished(HoldReply(ReplayHold(db.holds[i], HoldFingerprint(h))))
    case None => Missed
  }

  function Refusal(c: Command, e: AppError): Phase {
    Finished(if c.Reservation? then HoldReply(Refused(e)) else TxReply(Refused(e)))
  }

  // Service checks and first lookup; a request without a key runs whole.
  ghost function Begin(db: Db, c: Command): (Db, Phase) {
    if ServiceFault(c).Some? then (db, Refusal(c, ServiceFault(c).value))
    else if Keyed(c) then (db, LookupPhase(db, c))
    else if c.Reservation? then (db, HoldLookupPhase(db, BuildHold(c.hold)))
    else (Step(db, c), Finished(StepReply(db, c)))
  }

  // Checks and row lock; a request that has to wait for the lock stays put.
  ghost function Prepare(s: System, p: nat): Phase
    requires Shaped(s) && p < |s.phases|
  {
    match s.requests[p]
    case Create(request) =>
      var fault := CreateFault(s.db, BuildTransaction(request));
      if fault.Some? then Finished(TxReply(Refused(fault.value))) else Checked
    case ReverseOf(id, _, _, _, _, ids) =>
      (match FindTx(s.db.txs, id)
       case None => Finished(TxReply(Refused(NotFound)))
       case Some(i) =>
         if !OriginalFree(s, p, i) then Missed
         else
           var fault := ReversalFault(s.db.txs[i], ids);
           if fault.Some? then Finished(TxReply(Refused(fault.value))) else OriginalLocked(i, s.db.txs[i]))
    case Reservation(request) =>
      var h := BuildHold(request);
      if !FundsFree(s, p, HoldKey(h)) then Missed
      else
        var row := Row(s.db.balances, HoldKey(h));
        var fault := HoldFault(s.db, h, row);
        if fault.Some? then Finished(HoldReply(Refused(fault.value))) else FundsLocked(row)
    case _ => Missed
  }

  function TxAttempt(db: Db, a: Attempt<Transaction>): (Db, Phase) {
    match a
    case Committed(after, t) => (after, Finished(TxReply(Done(t, false))))
    case UniqueViolation => (db, Violated)
    case Rejected(e) => (db, Finished(TxReply(Refused(e))))
  }

  function HoldAttempt(db: Db, a: Attempt<Hold>): (Db, Phase) {
    match a
    case Committed(after, h) => (after, Finished(HoldReply(Done(h, false))))
    case UniqueViolation => (db, Violated)
    case Rejected(e) => (db, Finished(HoldReply(Refused(e))))
  }

  function SecondLookup(db: Db, c: Command): Phase {
    if Keyed(c) then Finished(TxReply(Relookup(db, RequestKey(c), RequestHash(c))))
    else if c.Reservation? then
      var h := BuildHold(c.hold);
      Finished(HoldReply(RelookupHold(db, h.key, HoldFingerprint(h))))
    else Violated
  }

  // A reversal writes what it has read under the lock, a hold adds to the
  // row as it is.
  ghost function Progress(s: System, p: nat): (Db, Phase)
    requires Shaped(s) && p < |s.phases|
  {
    var c := s.requests[p];
    match s.phases[p]
    case Idle => Begin(s.db, c)
    case Missed => (s.db, Prepare(s, p))
    case Checked => if c.Create? then TxAttempt(s.db, CreateInsert(s.db, BuildTransaction(c.request))) else (s.db, Checked)
    case OriginalLocked(i, original) =>
      if c.ReverseOf? && i < |s.db.txs| && |c.ids| == |original.postings|
      then TxAttempt(s.db, ReverseInsert(s.db, i, original, c.key, c.reason, c.now, c.revId, c.ids))
      else (s.db, s.phases[p])
    case FundsLocked(_) =>
      if c.Reservation? then HoldAttempt(s.db, HoldInsert(s.db, BuildHold(c.hold))) else (s.db, s.phases[p])
    case Violated => (s.db, SecondLookup(s.db, c))
    case Finished(_) => (s.db, s.phases[p])
  }

  // A request can also die at any point before its commit (deadlock victim,
  // lost connection, cancelled context): the database transaction rolls back
  // and its locks go with it.
  datatype Move = Advance(pid: nat) | Abort(pid: nat)

  ghost function Apply(s: System, m: Move): (r: System)
    requires Shaped(s)
    ensures Shaped(r)
  {
    var p := m.pid;
    if p >= |s.phases| then s
    else if m.Abort? then
      if s.phases[p].Finished? then s else s.(phases := s.phases[p := Finished(Aborted)])
    else
      var (after, phase) := Progress(s, p);
      if MayWrite(s, p, after) then s.(db := after, phases := s.phases[p := phase]) else s
  }

  ghost function Schedule(s: System, moves: seq<Move>): (r: System)
    requires Shaped(s)
    ensures Shaped(r) && r.requests == s.requests
  {
    if moves == [] then s else Apply(Schedule(s, moves[..|moves| - 1]), moves[|moves| - 1])
  }

  function Start(db: Db, requests: seq<Command>): (s: System)
    ensures Shaped(s)
  {
    System(db, requests, seq(|requests|, i => Idle))
  }

  // ---- What every interleaving keeps -----------------------------------------------------------

  // The request behind a stored hash is still visible in the tables.
  ghost predicate HashBacked(db: Db, h: Fingerprint) {
    match h
    case CanonicalTransaction(ledger, _, _, _, _, _, postings) =>
      && ledger in db.ledgers
      && forall p :: p in postings ==> p.account in db.accounts && db.accounts[p.account].ledger == ledger
    case CanonicalReversal(original, _) =>
      exists i :: 0 <= i < |db.txs| && db.txs[i].id == original && db.txs[i].status == Reversed
    case CanonicalHold(_, _, _, _, _) => true
  }

  ghost predicate KeyHashes(db: Db) {
    forall key :: key in db.keys ==> HashBacked(db, db.keys[key].hash)
  }

  // What a reply says about the stored response of its key.
  ghost predicate ReplyOk(keys: map<string, Stored>, key: string, hash: Fingerprint, r: Reply<Transaction>) {
    match r
    case Done(t, replayed) =>
      key in keys && keys[key].hash == hash && if replayed then t == keys[key].response else Shows(keys[key].response, t)
    case Refused(e) => e == IdempotencyConflict ==> key in keys && keys[key].hash != hash
  }

  // The errors a keyed request can earn by itself, without regard to what is
  // stored under its key.
  ghost predicate OwnError(c: Command, e: AppError) {
    || ServiceFault(c) == Some(e)
    || e == NotFound || e == Internal || e == Conflict
    || e == (if c.Create? then ValidationFailed else InvalidState)
  }

  ghost predicate PhaseOk(db: Db, c: Command, phase: Phase) {
    match phase
    case Idle => true
    case Missed => ServiceFault(c).None? && (Keyed(c) || c.Reservation?)
    case Checked => ServiceFault(c).None? && c.Create? && CreateFault(db, BuildTransaction(c.request)).None?
    case OriginalLocked(i, original) =>
      && ServiceFault(c).None? && c.ReverseOf? && i < |db.txs|
      && db.txs[i] == original && original.id == c.id && ReversalFault(original, c.ids).None?
    case FundsLocked(row) =>
      && ServiceFault(c).None? && c.Reservation? && FundsKey(c) in db.balances
      && db.balances[FundsKey(c)] == row && HoldFault(db, BuildHold(c.hold), row).None?
    case Violated => ServiceFault(c).None? && (Keyed(c) || c.Reservation?)
    case Finished(outcome) =>
      Fitting(c, outcome) &&
      (outcome.TxReply? ==>
        && ReplyOk(db.keys, RequestKey(c), RequestHash(c), outcome.reply)
        && (outcome.reply.Refused? ==> outcome.reply.error == IdempotencyConflict || OwnError(c, outcome.reply.error)))
  }

  ghost predicate PhasesOk(s: System)
    requires Shaped(s)
  {
    forall p :: 0 <= p < |s.phases| ==> PhaseOk(s.db, s.requests[p], s.phases[p])
  }

  // No row is locked twice.
  ghost predicate LocksExclusive(s: System)
    requires Shaped(s)
  {
    && (forall p, q, k :: HoldsFunds(s, p, k) && HoldsFunds(s, q, k) ==> p == q)
    && (forall p, q, i :: HoldsOriginal(s, p, i) && HoldsOriginal(s, q, i) ==> p == q)
  }

  ghost predicate SystemInv(s: System) {
    Shaped(s) && Inv(s.db) && KeyHashes(s.db) && PhasesOk(s) && LocksExclusive(s)
  }

  // ---- Stored hashes stay backed ------------------------------------------------------------------

  lemma HashStays(db: Db, after: Db, h: Fingerprint)
    requires Extends(db, after) && HashBacked(db, h)
    ensures HashBacked(after, h)
  {
    if h.CanonicalReversal? {
      var i :| 0 <= i < |db.txs| && db.txs[i].id == h.original && db.txs[i].status == Reversed;
      assert TxLater(db.txs[i], after.txs[i]);
      assert after.txs[i].id == Fixed(after.txs[i]).id;
    }
  }

  lemma CanonicalIn(ps: seq<Posting>)
    ensures forall p :: p in ps ==> Canonical(p) in Sort(CanonicalAll(ps))
    ensures forall c :: c in Sort(CanonicalAll(ps)) ==> exists p :: p in ps && Canonical(p) == c
  {
    var all := CanonicalAll(ps);
    SortOrdered(all);
    forall p | p in ps
      ensures Canonical(p) in Sort(all)
    {
      var i :| 0 <= i < |ps| && ps[i] == p;
      assert all[i] in multiset(Sort(all));
    }
    forall c | c in Sort(all)
      ensures exists p :: p in ps && Canonical(p) == c
    {
      assert c in multiset(all);
      var i :| 0 <= i < |all| && all[i] == c;
      assert ps[i] in ps;
    }
  }

  lemma CreateHash(db: Db, t: Transaction)
    requires CreateFault(db, t).None?
    ensures HashBacked(db, TransactionFingerprint(t))
  {
    AccountsFaultSound(db.accounts, t.ledger, t.postings);
    CanonicalIn(t.postings);
  }

  lemma {:induction false} NoAccountsFault(accounts: map<Id, Account>, ledger: Id, ps: seq<Posting>)
    requires forall p :: p in ps ==> p.account in accounts && accounts[p.account].ledger == ledger
    ensures AccountsFault(accounts, ledger, ps).None?
  {
    if ps != [] {
      var last := ps[|ps| - 1];
      assert last in ps;
      NoAccountsFault(accounts, ledger, ps[..|ps| - 1]);
    }
  }

  // Whoever sends the winner's request again passes its checks again.
  lemma SameHashChecks(db: Db, t: Transaction)
    requires HashBacked(db, TransactionFingerprint(t))
    ensures CreateFault(db, t).None?
  {
    CanonicalIn(t.postings);
    forall p | p in t.postings
      ensures p.account in db.accounts && db.accounts[p.account].ledger == t.ledger
    {
      assert Canonical(p) in Sort(CanonicalAll(t.postings));
    }
    NoAccountsFault(db.accounts, t.ledger, t.postings);
  }

  lemma AddedHash(db: Db, after: Db, key: string, stored: Stored)
    requires KeyHashes(db) && Extends(db, after)
    requires after.keys == db.keys || (after.keys == db.keys[key := stored] && HashBacked(after, stored.hash))
    ensures KeyHashes(after)
  {
    forall x | x in after.keys
      ensures HashBacked(after, after.keys[x].hash)
    {
      if x in db.keys && after.keys[x] == db.keys[x] {
        HashStays(db, after, db.keys[x].hash);
      }
    }
  }

  // ---- Each piece is a stutter or the whole atomic step ------------------------------------------------

  lemma CreateCommits(db: Db, c: Command)
    requires c.Create? && ServiceFault(c).None? && CreateFault(db, BuildTransaction(c.request)).None?
    requires CreateInsert(db, BuildTransaction(c.request)).Committed?
    ensures Step(db, c) == CreateInsert(db, BuildTransaction(c.request)).db
    ensures StepReply(db, c) == TxReply(Done(CreateInsert(db, BuildTransaction(c.request)).value, false))
  {
  }

  lemma ReverseCommits(db: Db, c: Command, i: nat)
    requires c.ReverseOf? && ServiceFault(c).None? && UniqueTxs(db.txs)
    requires i < |db.txs| && db.txs[i].id == c.id && ReversalFault(db.txs[i], c.ids).None?
    requires ReverseInsert(db, i, db.txs[i], c.key, c.reason, c.now, c.revId, c.ids).Committed?
    ensures Step(db, c) == ReverseInsert(db, i, db.txs[i], c.key, c.reason, c.now, c.revId, c.ids).db
    ensures StepReply(db, c)
         == TxReply(Done(ReverseInsert(db, i, db.txs[i], c.key, c.reason, c.now, c.revId, c.ids).value, false))
  {
    assert FindTx(db.txs, c.id) == Some(i);
  }

  lemma NewHoldKey(db: Db, h: Hold)
    requires HoldInsert(db, h).Committed?
    ensures FindHoldKey(db.holds, h.key).None?
  {
  }

  lemma ServiceReserves(db: Db, h: Hold)
    requires HoldFault(db, h, Row(db.balances, HoldKey(h))).None? && HoldInsert(db, h).Committed?
    ensures CreateHold(db, h) == (HoldInsert(db, h).db, Done(HoldInsert(db, h).value, false))
  {
    NewHoldKey(db, h);
  }

  lemma HoldCommits(db: Db, c: Command)
    requires c.Reservation? && ServiceFault(c).None?
    requires HoldFault(db, BuildHold(c.hold), Row(db.balances, FundsKey(c))).None?
    requires HoldInsert(db, BuildHold(c.hold)).Committed?
    ensures Step(db, c) == HoldInsert(db, BuildHold(c.hold)).db
    ensures StepReply(db, c) == HoldReply(Done(HoldInsert(db, BuildHold(c.hold)).value, false))
  {
    ServiceReserves(db, BuildHold(c.hold));
    assert ServiceHold(db, c.hold) == CreateHold(db, BuildHold(c.hold));
  }

  // The commit of a reservation runs against the very row it has checked.
  lemma LockedFunds(s: System, p: nat)
    requires SystemInv(s) && p < |s.phases| && s.phases[p].FundsLocked?
    ensures s.requests[p].Reservation? && FundsKey(s.requests[p]) in s.db.balances
    ensures Row(s.db.balances, FundsKey(s.requests[p])) == s.phases[p].balance
    ensures HoldFault(s.db, BuildHold(s.requests[p].hold), s.phases[p].balance).None?
    ensures forall q :: HoldsFunds(s, q, FundsKey(s.requests[p])) ==> q == p
  {
    assert PhaseOk(s.db, s.requests[p], s.phases[p]);
    assert HoldsFunds(s, p, FundsKey(s.requests[p]));
  }

  lemma ProgressRefines(s: System, p: nat)
    requires SystemInv(s) && p < |s.phases|
    ensures Progress(s, p).0 == s.db
            || Progress(s, p) == (Step(s.db, s.requests[p]), Finished(StepReply(s.db, s.requests[p])))
  {
    var c := s.requests[p];
    assert PhaseOk(s.db, c, s.phases[p]);
    if Progress(s, p).0 != s.db {
      match s.phases[p]
      case Checked => CreateCommits(s.db, c);
      case OriginalLocked(i, original) => ReverseCommits(s.db, c, i);
      case FundsLocked(row) => HoldCommits(s.db, c);
      case _ =>
    }
  }

  // ---- Every move keeps the invariant ----------------------------------------------------------------------

  lemma OtherKeepsKeys(db: Db, c: Command)
    requires !Keyed(c)
    ensures Step(db, c).keys == db.keys
  {
  }

  lemma CreateHashes(db: Db, c: Command)
    requires c.Create? && KeyHashes(db) && CreateFault(db, BuildTransaction(c.request)).None?
    requires CreateInsert(db, BuildTransaction(c.request)).Committed?
    requires Extends(db, CreateInsert(db, BuildTransaction(c.request)).db)
    ensures KeyHashes(CreateInsert(db, BuildTransaction(c.request)).db)
  {
    var t := BuildTransaction(c.request);
    var after := CreateInsert(db, t).db;
    CreateHash(db, t);
    HashStays(db, after, TransactionFingerprint(t));
    AddedHash(db, after, t.key, Stored(Snapshot(t), TransactionFingerprint(t)));
  }

  lemma ReverseHashes(db: Db, c: Command, i: nat)
    requires c.ReverseOf? && KeyHashes(db)
    requires i < |db.txs| && db.txs[i].id == c.id && ReversalFault(db.txs[i], c.ids).None?
    requires ReverseInsert(db, i, db.txs[i], c.key, c.reason, c.now, c.revId, c.ids).Committed?
    requires Extends(db, ReverseInsert(db, i, db.txs[i], c.key, c.reason, c.now, c.revId, c.ids).db)
    ensures KeyHashes(ReverseInsert(db, i, db.txs[i], c.key, c.reason, c.now, c.revId, c.ids).db)
  {
    var after := ReverseInsert(db, i, db.txs[i], c.key, c.reason, c.now, c.revId, c.ids).db;
    var rev := ReversalRow(db.txs[i], c.key, c.reason, c.now, c.revId, c.ids);
    assert after.txs[i].id == c.id && after.txs[i].status == Reversed;
    AddedHash(db, after, rev.key, Stored(Snapshot(rev), ReverseFingerprint(c.id, c.reason)));
  }

  lemma SameKeyHashes(db: Db, after: Db)
    requires KeyHashes(db) && Extends(db, after) && after.keys == db.keys
    ensures KeyHashes(after)
  {
    forall key | key in after.keys
      ensures HashBacked(after, after.keys[key].hash)
    {
      HashStays(db, after, db.keys[key].hash);
    }
  }

  ghost predicate OwnOk(s: System, p: nat) {
    Shaped(s) && p < |s.phases| && PhaseOk(s.db, s.requests[p], s.phases[p])
  }

  lemma CommitAddsHash(s: System, p: nat)
    requires OwnOk(s, p) && KeyHashes(s.db) && Extends(s.db, Progress(s, p).0)
    requires s.phases[p].Checked? || s.phases[p].OriginalLocked?
    ensures KeyHashes(Progress(s, p).0)
  {
    if Progress(s, p).0 != s.db {
      if s.phases[p].Checked? {
        CreateHashes(s.db, s.requests[p]);
      } else {
        ReverseHashes(s.db, s.requests[p], s.phases[p].row);
      }
    }
  }

  lemma PlainKeepsKeys(s: System, p: nat)
    requires OwnOk(s, p)
    requires !s.phases[p].Checked? && !s.phases[p].OriginalLocked?
    ensures Progress(s, p).0.keys == s.db.keys
  {
    if s.phases[p].Idle? && !Keyed(s.requests[p]) {
      OtherKeepsKeys(s.db, s.requests[p]);
    }
  }

  lemma ProgressHashes(s: System, p: nat)
    requires OwnOk(s, p) && KeyHashes(s.db) && Extends(s.db, Progress(s, p).0)
    ensures KeyHashes(Progress(s, p).0)
  {
    if s.phases[p].Checked? || s.phases[p].OriginalLocked? {
      CommitAddsHash(s, p);
    } else {
      PlainKeepsKeys(s, p);
      SameKeyHashes(s.db, Progress(s, p).0);
    }
  }

  lemma {:induction false} AccountsFaultStays(a: map<Id, Account>, a': map<Id, Account>, ledger: Id, ps: seq<Posting>)
    requires AccountsExtend(a, a') && AccountsFault(a, ledger, ps).None?
    ensures AccountsFault(a', ledger, ps).None?
  {
    if ps != [] {
      AccountsFaultStays(a, a', ledger, ps[..|ps| - 1]);
    }
  }

  lemma FundsStay(db: Db, after: Db, h: Hold, row: Balance)
    requires Extends(db, after) && h.amount.units > 0
    requires HoldFault(db, h, row).None? && Row(after.balances, HoldKey(h)) == row
    ensures HoldKey(h) in after.balances && HoldFault(after, h, row).None?
  {
  }

  lemma OthersStay(s: System, q: nat, after: Db)
    requires SystemInv(s) && q < |s.phases| && Extends(s.db, after) && Undisturbed(s, q, after)
    ensures PhaseOk(after, s.requests[q], s.phases[q])
  {
    var c := s.requests[q];
    assert PhaseOk(s.db, c, s.phases[q]);
    match s.phases[q]
    case Checked =>
      var t := BuildTransaction(c.request);
      AccountsFaultStays(s.db.accounts, after.accounts, t.ledger, t.postings);
    case FundsLocked(row) => FundsStay(s.db, after, BuildHold(c.hold), row);
    case _ =>
  }

  lemma LookupOk(db: Db, c: Command)
    requires Keyed(c) && ServiceFault(c).None?
    ensures PhaseOk(db, c, LookupPhase(db, c))
  {
  }

  lemma {:induction false} AccountsFaultKind(accounts: map<Id, Account>, ledger: Id, ps: seq<Posting>)
    ensures var fault := AccountsFault(accounts, ledger, ps);
            fault.Some? ==> fault.value == NotFound || fault.value == ValidationFailed
  {
    if ps != [] {
      AccountsFaultKind(accounts, ledger, ps[..|ps| - 1]);
    }
  }

  lemma PrepareOk(s: System, p: nat)
    requires OwnOk(s, p) && s.phases[p] == Missed
    ensures PhaseOk(s.db, s.requests[p], Prepare(s, p))
  {
    var c := s.requests[p];
    match c
    case Create(request) =>
      var t := BuildTransaction(request);
      AccountsFaultKind(s.db.accounts, t.ledger, t.postings);
    case Reservation(request) =>
      if Prepare(s, p).FundsLocked? {
        Itself(s.db);
        FundsStay(s.db, s.db, BuildHold(request), Row(s.db.balances, FundsKey(c)));
      }
    case _ =>
  }

  lemma BeginOk(db: Db, c: Command)
    ensures PhaseOk(Begin(db, c).0, c, Begin(db, c).1)
  {
    if Keyed(c) && ServiceFault(c).None? {
      LookupOk(db, c);
    }
  }

  // What the commit of a create leaves under its key.
  lemma CreateReplyOk(db: Db, t: Transaction)
    requires CreateInsert(db, t).Committed?
    ensures var a := CreateInsert(db, t);
            a.value == t && ReplyOk(a.db.keys, t.key, TransactionFingerprint(t), Done(t, false))
  {
  }

  lemma CreatePhase(s: System, p: nat)
    requires OwnOk(s, p) && s.phases[p].Checked?
    ensures PhaseOk(Progress(s, p).0, s.requests[p], Progress(s, p).1)
  {
    var t := BuildTransaction(s.requests[p].request);
    if CreateInsert(s.db, t).Committed? {
      CreateReplyOk(s.db, t);
    }
  }

  lemma ReversePhase(s: System, p: nat)
    requires OwnOk(s, p) && s.phases[p].OriginalLocked?
    ensures PhaseOk(Progress(s, p).0, s.requests[p], Progress(s, p).1)
  {
  }

  lemma LastPhase(s: System, p: nat)
    requires OwnOk(s, p) && (s.phases[p].FundsLocked? || s.phases[p].Violated? || s.phases[p].Finished?)
    ensures PhaseOk(Progress(s, p).0, s.requests[p], Progress(s, p).1)
  {
  }

  lemma OwnPhase(s: System, p: nat)
    requires OwnOk(s, p)
    ensures PhaseOk(Progress(s, p).0, s.requests[p], Progress(s, p).1)
  {
    match s.phases[p]
    case Idle => BeginOk(s.db, s.requests[p]);
    case Missed => PrepareOk(s, p);
    case Checked => CreatePhase(s, p);
    case OriginalLocked(_, _) => ReversePhase(s, p);
    case _ => LastPhase(s, p);
  }

  lemma LocksKept(s: System, p: nat, after: Db, phase: Phase)
    requires Shaped(s) && LocksExclusive(s) && p < |s.phases|
    requires phase.FundsLocked? && s.requests[p].Reservation? ==>
               s.phases[p] == phase || FundsFree(s, p, FundsKey(s.requests[p]))
    requires phase.OriginalLocked? ==> s.phases[p] == phase || OriginalFree(s, p, phase.row)
    ensures LocksExclusive(s.(db := after, phases := s.phases[p := phase]))
  {
    var t := s.(db := after, phases := s.phases[p := phase]);
    forall a, b, k | HoldsFunds(t, a, k) && HoldsFunds(t, b, k)
      ensures a == b
    {
      assert a != p ==> HoldsFunds(s, a, k);
      assert b != p ==> HoldsFunds(s, b, k);
      if s.phases[p] == phase {
        assert HoldsFunds(s, a, k) && HoldsFunds(s, b, k);
      }
    }
    forall a, b, i | HoldsOriginal(t, a, i) && HoldsOriginal(t, b, i)
      ensures a == b
    {
      assert a != p ==> HoldsOriginal(s, a, i);
      assert b != p ==> HoldsOriginal(s, b, i);
      if s.phases[p] == phase {
        assert HoldsOriginal(s, a, i) && HoldsOriginal(s, b, i);
      }
    }
  }

  // Only Missed requests take locks, and only free ones.
  lemma LocksTaken(s: System, p: nat)
    requires OwnOk(s, p)
    ensures var phase := Progress(s, p).1;
            && (phase.FundsLocked? && s.requests[p].Reservation? ==>
                  s.phases[p] == phase || FundsFree(s, p, FundsKey(s.requests[p])))
            && (phase.OriginalLocked? ==> s.phases[p] == phase || OriginalFree(s, p, phase.row))
  {
  }

  lemma ProgressExtends(s: System, p: nat)
    requires SystemInv(s) && p < |s.phases|
    ensures Inv(Progress(s, p).0) && Extends(s.db, Progress(s, p).0)
  {
    ProgressRefines(s, p);
    StepKeeps(s.db, s.requests[p]);
    StepExtends(s.db, s.requests[p]);
    Itself(s.db);
  }

  lemma AbortKeeps(s: System, p: nat)
    requires SystemInv(s)
    ensures SystemInv(Apply(s, Abort(p)))
  {
    if p < |s.phases| && !s.phases[p].Finished? {
      LocksKept(s, p, s.db, Finished(Aborted));
    }
  }

  lemma AdvanceKeeps(s: System, p: nat)
    requires SystemInv(s)
    ensures SystemInv(Apply(s, Advance(p)))
  {
    if p < |s.phases| {
      var (after, phase) := Progress(s, p);
      if MayWrite(s, p, after) {
        var t := s.(db := after, phases := s.phases[p := phase]);
        assert OwnOk(s, p);
        ProgressExtends(s, p);
        ProgressHashes(s, p);
        LocksTaken(s, p);
        LocksKept(s, p, after, phase);
        OwnPhase(s, p);
        forall q | 0 <= q < |t.phases|
          ensures PhaseOk(t.db, t.requests[q], t.phases[q])
        {
          if q != p {
            OthersStay(s, q, after);
          }
        }
      }
    }
  }

  // ---- Serializability: a schedule of pieces is a run of atomic steps --------------------------------------

  // Whatever a move does to the tables, one atomic step does, with the same
  // reply: row locks and unique constraints make up for reads that happened
  // earlier.
  lemma MoveRefines(s: System, m: Move)
    requires SystemInv(s)
    ensures SystemInv(Apply(s, m))
    ensures Extends(s.db, Apply(s, m).db)
    ensures Apply(s, m).db == s.db
            || (m.Advance? && m.pid < |s.requests| && Apply(s, m).db == Step(s.db, s.requests[m.pid])
                && Apply(s, m).phases[m.pid] == Finished(StepReply(s.db, s.requests[m.pid])))
  {
    Itself(s.db);
    if m.Abort? {
      AbortKeeps(s, m.pid);
    } else {
      AdvanceKeeps(s, m.pid);
      if m.pid < |s.phases| {
        ProgressRefines(s, m.pid);
        ProgressExtends(s, m.pid);
      }
    }
  }

  lemma {:induction false} ScheduleKeeps(s: System, moves: seq<Move>)
    requires SystemInv(s)
    ensures SystemInv(Schedule(s, moves)) && Extends(s.db, Schedule(s, moves).db)
  {
    if moves == [] {
      Itself(s.db);
    } else {
      var before := Schedule(s, moves[..|moves| - 1]);
      ScheduleKeeps(s, moves[..|moves| - 1]);
      MoveRefines(before, moves[|moves| - 1]);
      ExtendsTransitive(s.db, before.db, Apply(before, moves[|moves| - 1]).db);
    }
  }

  lemma StartInv(db: Db, requests: seq<Command>)
    requires Inv(db) && KeyHashes(db)
    ensures SystemInv(Start(db, requests))
  {
  }

  // A finished request stays finished, with its outcome.
  lemma FinishedStays(s: System, m: Move, p: nat)
    requires Shaped(s) && p < |s.phases| && s.phases[p].Finished?
    ensures Apply(s, m).phases[p] == s.phases[p]
    ensures m.pid == p ==> Apply(s, m).db == s.db
  {
  }

  // A move that changes the tables ends its request, by taking effect.
  lemma ChangeFinishes(s: System, m: Move)
    requires Shaped(s) && Apply(s, m).db != s.db
    ensures m.pid < |s.phases| && !s.phases[m.pid].Finished? && Apply(s, m).phases[m.pid].Finished?
    ensures TookPlace(Apply(s, m).phases[m.pid].outcome)
  {
  }

  // The reply of a request whose step is in the tables.
  predicate TookPlace(o: Outcome) {
    match o
    case TxReply(reply) => reply.Done? && !reply.replayed
    case HoldReply(answer) => answer.Done? && !answer.replayed
    case PostReply(posted) => posted.Done?
    case CloseReply(closed) => closed.Done?
    case TableReply(made) => made.Done?
    case Aborted => false
  }

  function Commands(requests: seq<Command>, pids: seq<nat>): (cs: seq<Command>)
    requires forall i :: 0 <= i < |pids| ==> pids[i] < |requests|
    ensures |cs| == |pids|
  {
    seq(|pids|, i requires 0 <= i < |pids| => requests[pids[i]])
  }

  // Distinct requests that have committed between two states.
  ghost predicate Committers(before: seq<Phase>, after: seq<Phase>, pids: seq<nat>) {
    && (forall i, j :: 0 <= i < j < |pids| ==> pids[i] != pids[j])
    && forall i :: 0 <= i < |pids| ==> pids[i] < |before| && pids[i] < |after| && Commits(before[pids[i]], after[pids[i]])
  }

  predicate Commits(before: Phase, after: Phase) {
    !before.Finished? && after.Finished? && TookPlace(after.outcome)
  }

  // Whose moves change the tables, in the order they do.
  ghost function CommitOrder(s: System, moves: seq<Move>): (pids: seq<nat>)
    requires Shaped(s)
    ensures forall i :: 0 <= i < |pids| ==> pids[i] < |s.requests|
  {
    if moves == [] then []
    else
      var init, m := moves[..|moves| - 1], moves[|moves| - 1];
      if Schedule(s, moves).db != Schedule(s, init).db then CommitOrder(s, init) + [m.pid] else CommitOrder(s, init)
  }

  // The n-th of them has been told what its atomic step replies after the
  // steps of those before it.
  ghost predicate Told(db: Db, requests: seq<Command>, phases: seq<Phase>, pids: seq<nat>, n: nat)
    requires forall i :: 0 <= i < |pids| ==> pids[i] < |requests|
    requires n < |pids|
  {
    && pids[n] < |phases|
    && phases[pids[n]] == Finished(StepReply(Run(db, Commands(requests, pids[..n])), requests[pids[n]]))
  }

  ghost predicate AllTold(db: Db, requests: seq<Command>, phases: seq<Phase>, pids: seq<nat>) {
    && (forall i :: 0 <= i < |pids| ==> pids[i] < |requests|)
    && forall n :: 0 <= n < |pids| ==> Told(db, requests, phases, pids, n)
  }

  // A schedule amounts to one atomic step for each request that committed
  // during it, in commit order: same tables, same replies.
  lemma {:induction false} Serializable(s: System, moves: seq<Move>)
    requires SystemInv(s)
    ensures Schedule(s, moves).db == Run(s.db, Commands(s.requests, CommitOrder(s, moves)))
    ensures Committers(s.phases, Schedule(s, moves).phases, CommitOrder(s, moves))
    ensures AllTold(s.db, s.requests, Schedule(s, moves).phases, CommitOrder(s, moves))
  {
    if moves != [] {
      var init, m := moves[..|moves| - 1], moves[|moves| - 1];
      Serializable(s, init);
      PhasesNext(s, moves, CommitOrder(s, init));
      ScheduleKeeps(s, init);
      ToldNext(s.db, Schedule(s, init), m, CommitOrder(s, init));
      if Schedule(s, moves).db != Schedule(s, init).db {
        MoveRefines(Schedule(s, init), m);
        StepAdded(s.db, s.requests, CommitOrder(s, init), m.pid);
      }
    }
  }

  // One more move leaves the replies given and adds that of a new committer.
  lemma ToldNext(db: Db, s: System, m: Move, pids: seq<nat>)
    requires SystemInv(s) && AllTold(db, s.requests, s.phases, pids)
    requires s.db == Run(db, Commands(s.requests, pids))
    ensures AllTold(db, s.requests, Apply(s, m).phases, pids)
    ensures Apply(s, m).db != s.db ==> AllTold(db, s.requests, Apply(s, m).phases, pids + [m.pid])
  {
    forall n | 0 <= n < |pids|
      ensures Told(db, s.requests, Apply(s, m).phases, pids, n)
    {
      assert Told(db, s.requests, s.phases, pids, n);
      FinishedStays(s, m, pids[n]);
    }
    if Apply(s, m).db != s.db {
      MoveRefines(s, m);
      ToldMore(db, s.requests, Apply(s, m).phases, pids, m.pid);
    }
  }

  lemma ToldMore(db: Db, requests: seq<Command>, phases: seq<Phase>, pids: seq<nat>, pid: nat)
    requires AllTold(db, requests, phases, pids)
    requires pid < |requests| && pid < |phases|
    requires phases[pid] == Finished(StepReply(Run(db, Commands(requests, pids)), requests[pid]))
    ensures AllTold(db, requests, phases, pids + [pid])
  {
    forall n | 0 <= n <= |pids|
      ensures Told(db, requests, phases, pids + [pid], n)
    {
      if n < |pids| {
        assert (pids + [pid])[..n] == pids[..n];
        assert Told(db, requests, phases, pids, n);
      } else {
        assert (pids + [pid])[..n] == pids;
      }
    }
  }

  // One more move: whoever had committed has, and one more may.
  lemma CommittersNext(before: seq<Phase>, after: seq<Phase>, next: seq<Phase>, pids: seq<nat>)
    requires Committers(before, after, pids) && |after| == |next|
    requires forall p :: 0 <= p < |after| && after[p].Finished? ==> next[p] == after[p]
    ensures Committers(before, next, pids)
    ensures forall p: nat :: p < |before| && p < |after| && !after[p].Finished? && Commits(before[p], next[p]) ==>
              Committers(before, next, pids + [p])
  {
  }

  lemma PhasesNext(s: System, moves: seq<Move>, pids: seq<nat>)
    requires Shaped(s) && moves != [] && Committers(s.phases, Schedule(s, moves[..|moves| - 1]).phases, pids)
    ensures Committers(s.phases, Schedule(s, moves).phases, pids)
    ensures Schedule(s, moves).db != Schedule(s, moves[..|moves| - 1]).db ==>
              Committers(s.phases, Schedule(s, moves).phases, pids + [moves[|moves| - 1].pid])
  {
    var init, m := moves[..|moves| - 1], moves[|moves| - 1];
    var before := Schedule(s, init);
    var after := Apply(before, m);
    forall p | 0 <= p < |before.phases| && before.phases[p].Finished?
      ensures after.phases[p] == before.phases[p]
    {
      FinishedStays(before, m, p);
    }
    CommittersNext(s.phases, before.phases, after.phases, pids);
    if after.db != before.db {
      ChangeFinishes(before, m);
      FinishedEarlier(s, init, m.pid);
    }
  }

  lemma StepAdded(db: Db, requests: seq<Command>, pids: seq<nat>, pid: nat)
    requires forall i :: 0 <= i < |pids| ==> pids[i] < |requests|
    requires pid < |requests|
    ensures Run(db, Commands(requests, pids + [pid])) == Step(Run(db, Commands(requests, pids)), requests[pid])
  {
    assert Commands(requests, pids + [pid])[..|pids|] == Commands(requests, pids);
  }

  // Unfinished after a schedule means unfinished before it.
  lemma {:induction false} FinishedEarlier(s: System, moves: seq<Move>, p: nat)
    requires Shaped(s) && p < |s.phases| && !Schedule(s, moves).phases[p].Finished?
    ensures !s.phases[p].Finished?
  {
    if moves != [] {
      var before := Schedule(s, moves[..|moves| - 1]);
      if before.phases[p].Finished? {
        FinishedStays(before, moves[|moves| - 1], p);
      }
      FinishedEarlier(s, moves[..|moves| - 1], p);
    }
  }

  // No move of a reservation, capture or release overdraws a row, whatever
  // other requests are in flight.
  lemma HoldMoveSolvent(s: System, m: Move, k: BalanceKey)
    requires SystemInv(s) && SolventAt(s.db, k)
    requires m.pid < |s.requests| ==> HoldCommand(s.requests[m.pid])
    ensures SolventAt(Apply(s, m).db, k)
  {
    MoveRefines(s, m);
    if Apply(s, m).db != s.db {
      HoldStepSolvent(s.db, s.requests[m.pid], k);
    }
  }

  // Concurrent reservations, captures and releases never promise the same
  // funds twice: no row's free funds go below zero, whatever the state of
  // the other rows.
  lemma {:induction false} HoldsNeverOverdraw(s: System, moves: seq<Move>, k: BalanceKey)
    requires SystemInv(s) && SolventAt(s.db, k)
    requires forall i :: 0 <= i < |moves| && moves[i].pid < |s.requests| ==> HoldCommand(s.requests[moves[i].pid])
    ensures SolventAt(Schedule(s, moves).db, k)
  {
    if moves != [] {
      var init, m := moves[..|moves| - 1], moves[|moves| - 1];
      HoldsNeverOverdraw(s, init, k);
      ScheduleKeeps(s, init);
      HoldMoveSolvent(Schedule(s, init), m, k);
    }
  }

  // ---- Idempotency: one key, one effect ------------------------------------------------------------------

  predicate TookEffect(phase: Phase) {
    && phase.Finished? && phase.outcome.TxReply?
    && phase.outcome.reply.Done? && !phase.outcome.reply.replayed
  }

  // Request p took effect under this key.
  predicate Winner(s: System, p: int, key: string)
    requires Shaped(s)
  {
    0 <= p < |s.phases| && Keyed(s.requests[p]) && RequestKey(s.requests[p]) == key && TookEffect(s.phases[p])
  }

  ghost predicate OneWinner(s: System)
    requires Shaped(s)
  {
    && (forall p, q, key :: Winner(s, p, key) && Winner(s, q, key) ==> p == q)
    && (forall key :: key in s.db.keys ==> exists p :: Winner(s, p, key))
  }

  lemma WinnerStored(s: System, p: nat, key: string)
    requires Shaped(s) && PhasesOk(s) && Winner(s, p, key)
    ensures key in s.db.keys && s.db.keys[key].hash == RequestHash(s.requests[p])
  {
    assert PhaseOk(s.db, s.requests[p], s.phases[p]);
  }

  // A piece of a request adds its own key while becoming its winner, or
  // leaves the keys alone.
  ghost predicate AddsKey(s: System, p: nat, after: Db, phase: Phase)
    requires Shaped(s) && p < |s.phases|
  {
    var c := s.requests[p];
    if TookEffect(phase)
    then Keyed(c) && RequestKey(c) !in s.db.keys && after.keys.Keys == s.db.keys.Keys + {RequestKey(c)}
    else after.keys == s.db.keys && (Keyed(c) ==> after == s.db)
  }

  lemma ProgressKeys(s: System, p: nat)
    requires OwnOk(s, p) && !s.phases[p].Finished?
    ensures AddsKey(s, p, Progress(s, p).0, Progress(s, p).1)
  {
    if s.phases[p].Idle? && !Keyed(s.requests[p]) {
      OtherKeepsKeys(s.db, s.requests[p]);
    }
  }

  lemma MoveWinners(s: System, p: nat, after: Db, phase: Phase)
    requires Shaped(s) && OneWinner(s) && PhasesOk(s)
    requires p < |s.phases| && !s.phases[p].Finished?
    requires AddsKey(s, p, after, phase)
    ensures OneWinner(s.(db := after, phases := s.phases[p := phase]))
  {
    var t := s.(db := after, phases := s.phases[p := phase]);
    forall a, key | Winner(t, a, key) && a != p
      ensures Winner(s, a, key) && key in s.db.keys
    {
      assert Winner(s, a, key);
      WinnerStored(s, a, key);
    }
    forall key | key in t.db.keys
      ensures exists a :: Winner(t, a, key)
    {
      if key in s.db.keys {
        var a :| Winner(s, a, key);
        assert Winner(t, a, key);
      } else {
        assert Winner(t, p, key);
      }
    }
  }

  lemma MoveKeepsWinner(s: System, m: Move)
    requires Shaped(s) && OneWinner(s) && PhasesOk(s)
    ensures OneWinner(Apply(s, m))
  {
    var p := m.pid;
    if p < |s.phases| && Apply(s, m) != s {
      if m.Abort? {
        SamePhases(s, p, Finished(Aborted));
      } else if !s.phases[p].Finished? {
        var (after, phase) := Progress(s, p);
        assert OwnOk(s, p);
        ProgressKeys(s, p);
        MoveWinners(s, p, after, phase);
      }
    }
  }

  lemma SamePhases(s: System, p: nat, phase: Phase)
    requires Shaped(s) && OneWinner(s) && p < |s.phases| && !s.phases[p].Finished?
    requires phase == Finished(Aborted)
    ensures OneWinner(s.(phases := s.phases[p := phase]))
  {
    var t := s.(phases := s.phases[p := phase]);
    forall a, key
      ensures Winner(t, a, key) <==> Winner(s, a, key)
    {
    }
    forall key | key in t.db.keys
      ensures exists a :: Winner(t, a, key)
    {
      var a :| Winner(s, a, key);
      assert Winner(t, a, key);
    }
  }

  lemma {:induction false} ScheduleWinners(s: System, moves: seq<Move>)
    requires SystemInv(s) && OneWinner(s)
    ensures OneWinner(Schedule(s, moves))
  {
    if moves != [] {
      ScheduleKeeps(s, moves[..|moves| - 1]);
      ScheduleWinners(s, moves[..|moves| - 1]);
      MoveKeepsWinner(Schedule(s, moves[..|moves| - 1]), moves[|moves| - 1]);
    }
  }

  // Any number of creates and reversals, in any interleaving, from the empty
  // ledger on. For every key, exactly one request took effect or none did,
  // and none only while the key is not stored. Every other reply is the stored
  // response with an equal hash, a conflict with a different one, or an error
  // of the request's own.
  lemma {:induction false} Idempotent(requests: seq<Command>, moves: seq<Move>, p: nat, key: string)
    requires p < |requests| && Keyed(requests[p]) && RequestKey(requests[p]) == key
    ensures var s := Schedule(Start(EMPTY_DB, requests), moves);
            && (key in s.db.keys <==> exists w :: Winner(s, w, key))
            && (forall v, w :: Winner(s, v, key) && Winner(s, w, key) ==> v == w)
            && (s.phases[p].Finished? && s.phases[p].outcome.TxReply? ==>
                  && ReplyOk(s.db.keys, key, RequestHash(requests[p]), s.phases[p].outcome.reply)
                  && (s.phases[p].outcome.reply.Refused? ==>
                        || s.phases[p].outcome.reply.error == IdempotencyConflict
                        || OwnError(requests[p], s.phases[p].outcome.reply.error)))
  {
    var start := Start(EMPTY_DB, requests);
    EmptyInv();
    StartInv(EMPTY_DB, requests);
    var s := Schedule(start, moves);
    ScheduleKeeps(start, moves);
    ScheduleWinners(start, moves);
    assert PhaseOk(s.db, s.requests[p], s.phases[p]);
    forall w | Winner(s, w, key)
      ensures key in s.db.keys
    {
      WinnerStored(s, w, key);
    }
  }

  // Whoever does not win changes nothing at all.
  lemma LosersChangeNothing(s: System, m: Move)
    requires SystemInv(s) && m.pid < |s.requests| && Keyed(s.requests[m.pid])
    requires !Winner(Apply(s, m), m.pid, RequestKey(s.requests[m.pid]))
    ensures Apply(s, m).db == s.db
  {
    var p := m.pid;
    if m.Advance? && !s.phases[p].Finished? {
      assert OwnOk(s, p);
      ProgressKeys(s, p);
    }
  }

  // ---- What a late request is told ------------------------------------------------------------------------------

  // This move ends request p.
  ghost predicate Ends(s: System, p: nat)
    requires Shaped(s)
  {
    p < |s.phases| && !s.phases[p].Finished? && Apply(s, Advance(p)).phases[p].Finished?
  }

  ghost predicate Late(s: System, p: nat) {
    && SystemInv(s) && p < |s.requests| && Keyed(s.requests[p]) && ServiceFault(s.requests[p]).None?
    && RequestKey(s.requests[p]) in s.db.keys && Ends(s, p)
  }

  // A create that repeats the stored request receives the stored response,
  // at whatever point it fell behind the winner.
  lemma LateCreate(s: System, p: nat)
    requires Late(s, p) && s.requests[p].Create?
    requires s.db.keys[RequestKey(s.requests[p])].hash == RequestHash(s.requests[p])
    ensures Apply(s, Advance(p)).phases[p].outcome
         == TxReply(Done(s.db.keys[RequestKey(s.requests[p])].response, true))
  {
    var c := s.requests[p];
    assert PhaseOk(s.db, c, s.phases[p]);
    assert HashBacked(s.db, RequestHash(c));
    SameHashChecks(s.db, BuildTransaction(c.request));
  }

  // A create that reuses the key for something else is refused: as a
  // conflict, unless its own ledger or accounts are wrong and it had looked
  // up the key too early to know.
  lemma LateOtherCreate(s: System, p: nat)
    requires Late(s, p) && s.requests[p].Create?
    requires s.db.keys[RequestKey(s.requests[p])].hash != RequestHash(s.requests[p])
    ensures Apply(s, Advance(p)).phases[p].outcome
         == TxReply(Refused(if s.phases[p].Missed? then CreateFault(s.db, BuildTransaction(s.requests[p].request)).value
                            else IdempotencyConflict))
  {
    assert PhaseOk(s.db, s.requests[p], s.phases[p]);
  }

  // A stored reversal has left its mark on the original.
  lemma StoredReversal(db: Db, i: nat, reason: string)
    requires UniqueTxs(db.txs) && i < |db.txs|
    requires HashBacked(db, ReverseFingerprint(db.txs[i].id, reason))
    ensures db.txs[i].status == Reversed
  {
    var j :| 0 <= j < |db.txs| && db.txs[j].id == db.txs[i].id && db.txs[j].status == Reversed;
    assert j == i;
  }

  // While a request holds an unreversed original, nobody has stored that
  // very reversal.
  lemma LockedMeansUnstored(s: System, p: nat)
    requires OwnOk(s, p) && KeyHashes(s.db) && UniqueTxs(s.db.txs) && s.phases[p].OriginalLocked?
    ensures s.requests[p].ReverseOf?
    ensures var key := RequestKey(s.requests[p]);
            key in s.db.keys ==> s.db.keys[key].hash != RequestHash(s.requests[p])
  {
    var c := s.requests[p];
    var key := RequestKey(c);
    if key in s.db.keys && s.db.keys[key].hash == RequestHash(c) {
      StoredReversal(s.db, s.phases[p].row, c.reason);
    }
  }

  lemma MissedReversal(s: System, p: nat)
    requires OwnOk(s, p) && UniqueTxs(s.db.txs) && s.phases[p].Missed? && s.requests[p].ReverseOf?
    requires HashBacked(s.db, RequestHash(s.requests[p]))
    ensures Prepare(s, p).Finished? ==> Prepare(s, p).outcome == TxReply(Refused(InvalidState))
  {
    var c := s.requests[p];
    var i := FindTx(s.db.txs, c.id);
    if i.Some? {
      StoredReversal(s.db, i.value, c.reason);
    }
  }

  lemma EndsWith(s: System, p: nat)
    requires Shaped(s) && Ends(s, p)
    ensures Progress(s, p).1.Finished? && Apply(s, Advance(p)).phases[p] == Progress(s, p).1
  {
  }

  // A reversal that repeats the stored request receives the stored response
  // if and only if it did not pass its lookup before the winner committed.
  // One that did waits for the original's row lock, finds it reversed and is
  // told so, although its own request is the one that was carried out.
  lemma LateReverse(s: System, p: nat)
    requires Late(s, p) && s.requests[p].ReverseOf?
    requires s.db.keys[RequestKey(s.requests[p])].hash == RequestHash(s.requests[p])
    ensures var outcome := Apply(s, Advance(p)).phases[p].outcome;
            && (outcome == TxReply(Done(s.db.keys[RequestKey(s.requests[p])].response, true)) <==> !s.phases[p].Missed?)
            && (outcome == TxReply(Refused(InvalidState)) <==> s.phases[p].Missed?)
  {
    var c := s.requests[p];
    assert OwnOk(s, p) && HashBacked(s.db, RequestHash(c));
    EndsWith(s, p);
    match s.phases[p]
    case OriginalLocked(_, _) => LockedMeansUnstored(s, p);
    case Missed => MissedReversal(s, p);
    case _ =>
  }

  // What a reversal past its lookup is told about the state of its original.
  function ReversalRefusal(db: Db, c: Command): (r: Option<AppError>)
    requires c.ReverseOf?
    ensures r.Some? ==> r.value == NotFound || r.value == InvalidState || r.value == Internal
  {
    match FindTx(db.txs, c.id)
    case None => Some(NotFound)
    case Some(i) => ReversalFault(db.txs[i], c.ids)
  }

  lemma OtherReversal(s: System, p: nat)
    requires OwnOk(s, p) && s.requests[p].ReverseOf? && !s.phases[p].Finished? && Progress(s, p).1.Finished?
    requires ServiceFault(s.requests[p]).None? && RequestKey(s.requests[p]) in s.db.keys
    requires s.db.keys[RequestKey(s.requests[p])].hash != RequestHash(s.requests[p])
    ensures var refusal := if s.phases[p].Missed? then ReversalRefusal(s.db, s.requests[p]) else Some(IdempotencyConflict);
            refusal.Some? && Progress(s, p).1 == Refusal(s.requests[p], refusal.value)
  {
  }

  // A reversal that reuses a stored key for something else, say a create's,
  // is refused as a conflict if and only if it did not pass its lookup before
  // the key was stored. One that did is told what its original's state says,
  // and never gets to see the key.
  lemma LateOtherReverse(s: System, p: nat)
    requires Late(s, p) && s.requests[p].ReverseOf?
    requires s.db.keys[RequestKey(s.requests[p])].hash != RequestHash(s.requests[p])
    ensures var outcome := Apply(s, Advance(p)).phases[p].outcome;
            var refusal := ReversalRefusal(s.db, s.requests[p]);
            && (outcome == TxReply(Refused(IdempotencyConflict)) <==> !s.phases[p].Missed?)
            && (s.phases[p].Missed? ==> refusal.Some? && outcome == TxReply(Refused(refusal.value)))
  {
    assert OwnOk(s, p);
    EndsWith(s, p);
    OtherReversal(s, p);
  }

  // A reservation whose key is stored by the time it ends. If it did not pass
  // its lookup before that, it is answered from the stored hold: with the
  // hold when the request is the same, as a conflict when it is not. If it
  // did, it is told about its own account and funds, which the stored hold
  // may by then have used up.
  lemma LateHold(s: System, p: nat)
    requires SystemInv(s) && p < |s.requests| && s.requests[p].Reservation? && ServiceFault(s.requests[p]).None?
    requires FindHoldKey(s.db.holds, BuildHold(s.requests[p].hold).key).Some? && Ends(s, p)
    ensures var h := BuildHold(s.requests[p].hold);
            var row := s.db.holds[FindHoldKey(s.db.holds, h.key).value];
            var fault := HoldFault(s.db, h, Row(s.db.balances, HoldKey(h)));
            var outcome := Apply(s, Advance(p)).phases[p].outcome;
            && (s.phases[p].Missed? ==> fault.Some? && outcome == HoldReply(Refused(fault.value)))
            && (!s.phases[p].Missed? ==>
                  outcome == HoldReply(if row.hash == HoldFingerprint(h) then Done(row.hold, true)
                                       else Refused(IdempotencyConflict)))
  {
    assert PhaseOk(s.db, s.requests[p], s.phases[p]);
    EndsWith(s, p);
  }

  // ---- What a request that is not late is told ---------------------------------------------------------------

  // Nobody has stored the key of request p.
  ghost predicate KeyUnused(s: System, p: nat)
    requires Shaped(s) && p < |s.requests|
  {
    var c := s.requests[p];
    && (Keyed(c) ==> RequestKey(c) !in s.db.keys)
    && (c.Reservation? ==> forall i :: 0 <= i < |s.db.holds| ==> s.db.holds[i].hold.key != BuildHold(c.hold).key)
  }

  lemma CreateOnTime(s: System, p: nat)
    requires OwnOk(s, p) && s.requests[p].Create? && KeyUnused(s, p)
    requires !s.phases[p].Finished? && !s.phases[p].Violated? && Progress(s, p).1.Finished?
    ensures Progress(s, p).1 == Finished(StepReply(s.db, s.requests[p]))
  {
  }

  lemma ReverseOnTime(s: System, p: nat)
    requires OwnOk(s, p) && s.requests[p].ReverseOf? && KeyUnused(s, p) && UniqueTxs(s.db.txs)
    requires !s.phases[p].Finished? && !s.phases[p].Violated? && Progress(s, p).1.Finished?
    ensures Progress(s, p).1 == Finished(StepReply(s.db, s.requests[p]))
  {
    if s.phases[p].OriginalLocked? {
      assert FindTx(s.db.txs, s.requests[p].id) == Some(s.phases[p].row);
    }
  }

  lemma HoldOnTime(s: System, p: nat)
    requires OwnOk(s, p) && s.requests[p].Reservation? && KeyUnused(s, p)
    requires !s.phases[p].Finished? && !s.phases[p].Violated? && Progress(s, p).1.Finished?
    ensures Progress(s, p).1 == Finished(StepReply(s.db, s.requests[p]))
  {
    assert FindHoldKey(s.db.holds, BuildHold(s.requests[p].hold).key).None?;
  }

  // As long as nobody has stored its key, a request that ends is told what its
  // atomic step replies at that moment, be it done or refused; after a unique
  // violation, that is a conflict. With the lemmas on late requests this covers
  // every reply of every interleaving.
  lemma OnTime(s: System, p: nat)
    requires SystemInv(s) && p < |s.requests| && KeyUnused(s, p) && Ends(s, p)
    ensures Apply(s, Advance(p)).phases[p]
         == if s.phases[p].Violated? then Refusal(s.requests[p], Conflict) else Finished(StepReply(s.db, s.requests[p]))
  {
    EndsWith(s, p);
    assert OwnOk(s, p);
    match s.requests[p]
    case Create(_) =>
      if !s.phases[p].Violated? {
        CreateOnTime(s, p);
      }
    case ReverseOf(_, _, _, _, _, _) =>
      if !s.phases[p].Violated? {
        ReverseOnTime(s, p);
      }
    case Reservation(_) =>
      if !s.phases[p].Violated? {
        HoldOnTime(s, p);
      } else {
        assert FindHoldKey(s.db.holds, BuildHold(s.requests[p].hold).key).None?;
      }
    case _ => WholeOnTime(s, p);
  }

  lemma WholeOnTime(s: System, p: nat)
    requires OwnOk(s, p) && !Keyed(s.requests[p]) && !s.requests[p].Reservation? && !s.phases[p].Finished?
    ensures s.phases[p].Idle? && Progress(s, p).1 == Finished(StepReply(s.db, s.requests[p]))
  {
  }
}
