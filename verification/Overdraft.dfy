// How every command moves the funds a row has free, and exactly when that
// overdraws it: postings never look at holds or at what is available
// (services/ledger-core/internal/adapters/postgres/store.go:657-965), only
// CreateHold does (store.go:1047-1070).
module Overdrafts {
  import opened Wrappers
  import opened Domain
  import opened LedgerTables
  import opened LedgerSteps
  import opened LedgerInvariant
  import opened LedgerRuns
  import opened LedgerHistory
  import opened SamplePayments

  function FreeAt(db: Db, k: BalanceKey): int
    requires k.account in db.accounts
  {
    Row(db.balances, k).Free(db.accounts[k.account].normal)
  }

  // What postings bring to a row on its account's own side.
  function Inflow(nb: NormalBalance, ps: seq<Posting>, k: BalanceKey): int {
    SignedBalance(nb, LegSum(ps, k, true) - LegSum(ps, k, false))
  }

  // The postings a command moves into the posted columns, if it commits:
  // those of a posted create, those of a draft being posted, and, the other
  // way round, those of the original of a reversal.
  function PostedInflow(db: Db, c: Command, k: BalanceKey): int
    requires k.account in db.accounts
  {
    var nb := db.accounts[k.account].normal;
    match c
    case Create(request) => if RequestedStatus(request) == Posted then Inflow(nb, request.postings, k) else 0
    case Post(id, _) =>
      var i := FindTx(db.txs, id);
      if i.Some? then Inflow(nb, db.txs[i.value].postings, k) else 0
    case ReverseOf(id, _, _, _, _, _) =>
      var i := FindTx(db.txs, id);
      if i.Some? then -Inflow(nb, db.txs[i.value].postings, k) else 0
    case _ => 0
  }

  // The funds a command sets aside on a row (or sets free, when negative).
  function NewlyHeld(db: Db, c: Command, k: BalanceKey): int {
    match c
    case Reservation(request) => if HoldKey(BuildHold(request)) == k then request.amount.units else 0
    case Capture(id, _, _, _) => -HeldBy(db, id, k)
    case Release(id, _) => -HeldBy(db, id, k)
    case _ => 0
  }

  function HeldBy(db: Db, id: Id, k: BalanceKey): int {
    match FindHold(db.holds, id)
    case None => 0
    case Some(i) => Reserved(db.holds[i].hold, k)
  }

  lemma AppliedFree(b: map<BalanceKey, Balance>, ps: seq<Posting>, c: Column, k: BalanceKey, nb: NormalBalance)
    ensures Row(Applied(b, ps, c), k).Free(nb) == Row(b, k).Free(nb) + if c == PostedColumn then Inflow(nb, ps, k) else 0
  {
    AppliedRow(b, ps, c, k);
  }

  lemma CreateFree(db: Db, t: Transaction, k: BalanceKey)
    requires k.account in db.accounts && CreateBody(db, t).Committed?
    ensures var after := CreateBody(db, t).db;
            && after.accounts == db.accounts
            && FreeAt(after, k)
               == FreeAt(db, k) + if t.status == Posted then Inflow(db.accounts[k.account].normal, t.postings, k) else 0
  {
    AppliedFree(db.balances, t.postings, ColumnOf(t.status), k, db.accounts[k.account].normal);
  }

  lemma PromotedFree(b: map<BalanceKey, Balance>, ps: seq<Posting>, k: BalanceKey, nb: NormalBalance)
    requires Keys(ps) <= b.Keys
    ensures Row(Promoted(b, ps), k).Free(nb) == Row(b, k).Free(nb) + Inflow(nb, ps, k)
  {
    if k !in b {
      Untouched(ps, k, true);
      Untouched(ps, k, false);
    }
  }

  lemma PostFree(db: Db, id: Id, now: Time, k: BalanceKey)
    requires RowsExist(db.txs, db.holds, db.balances)
    requires k.account in db.accounts && PostTransaction(db, id, now).0 != db
    ensures FindTx(db.txs, id).Some?
    ensures var after := PostTransaction(db, id, now).0;
            var t := db.txs[FindTx(db.txs, id).value];
            && after.accounts == db.accounts
            && FreeAt(after, k) == FreeAt(db, k) + Inflow(db.accounts[k.account].normal, t.postings, k)
  {
    PromotedFree(db.balances, db.txs[FindTx(db.txs, id).value].postings, k, db.accounts[k.account].normal);
  }

  lemma MirrorInflow(ps: seq<Posting>, ids: seq<Id>, k: BalanceKey, nb: NormalBalance)
    requires |ids| == |ps| && Balanced(ps)
    ensures Inflow(nb, MirrorPostings(ps, ids), k) == -Inflow(nb, ps, k)
  {
    MirrorNonNegative(ps, ids);
    MirrorLegs(MirrorPostings(ps, ids), ps, k);
  }

  lemma ReverseInsertFree(db: Db, i: nat, c: Command, k: BalanceKey)
    requires c.ReverseOf? && i < |db.txs| && |c.ids| == |db.txs[i].postings| && Balanced(db.txs[i].postings)
    requires ReverseInsert(db, i, db.txs[i], c.key, c.reason, c.now, c.revId, c.ids).Committed?
    requires k.account in db.accounts
    ensures var after := ReverseInsert(db, i, db.txs[i], c.key, c.reason, c.now, c.revId, c.ids).db;
            && after.accounts == db.accounts
            && FreeAt(after, k) == FreeAt(db, k) - Inflow(db.accounts[k.account].normal, db.txs[i].postings, k)
  {
    var ps := db.txs[i].postings;
    var nb := db.accounts[k.account].normal;
    MirrorInflow(ps, c.ids, k, nb);
    AppliedFree(db.balances, MirrorPostings(ps, c.ids), PostedColumn, k, nb);
  }

  lemma ReverseFree(db: Db, c: Command, k: BalanceKey)
    requires Sound(db) && c.ReverseOf? && k.account in db.accounts && Step(db, c) != db
    ensures FindTx(db.txs, c.id).Some?
    ensures Step(db, c).accounts == db.accounts
    ensures FreeAt(Step(db, c), k)
         == FreeAt(db, k) - Inflow(db.accounts[k.account].normal, db.txs[FindTx(db.txs, c.id).value].postings, k)
  {
    var i := FindTx(db.txs, c.id).value;
    assert SoundTx(db.ledgers, db.accounts, db.txs[i]);
    ReverseInsertFree(db, i, c, k);
  }

  lemma CloseFree(db: Db, i: nat, h: Hold, e: Event, k: BalanceKey)
    requires k.account in db.accounts && i < |db.holds| && CloseHold(db, i, h, e).0 != db
    ensures var after := CloseHold(db, i, h, e).0;
            && after.accounts == db.accounts
            && FreeAt(after, k) == FreeAt(db, k) + if HoldKey(h) == k then h.amount.units else 0
  {
  }

  lemma HoldFree(db: Db, h: Hold, k: BalanceKey)
    requires k.account in db.accounts && HoldInsert(db, h).Committed?
    ensures var after := HoldInsert(db, h).db;
            && after.accounts == db.accounts
            && FreeAt(after, k) == FreeAt(db, k) - if HoldKey(h) == k then h.amount.units else 0
  {
    var after := HoldInsert(db, h).db;
    assert after.balances == Reserve(db.balances, HoldKey(h), h.amount.units);
    ReserveFree(db.balances, HoldKey(h), h.amount.units, k, db.accounts[k.account].normal);
  }

  lemma CloseStepFree(db: Db, c: Command, k: BalanceKey)
    requires k.account in db.accounts && (c.Capture? || c.Release?) && Step(db, c) != db
    ensures Step(db, c).accounts == db.accounts
    ensures FreeAt(Step(db, c), k) == FreeAt(db, k) - NewlyHeld(db, c, k)
  {
    var i := FindHold(db.holds, c.id).value;
    var h := db.holds[i].hold;
    if c.Capture? {
      CloseFree(db, i, h.(status := Captured, capturedTransaction := c.transactionId),
                CapturedEvent(h, c.amount, c.transactionId, c.now), k);
    } else {
      CloseFree(db, i, h.(status := Released),
                HoldReleased(h.id, h.ledger, h.account, NewEventMoney(h.amount), c.now), k);
    }
  }

  lemma PostingStepFree(db: Db, c: Command, k: BalanceKey)
    requires RowsExist(db.txs, db.holds, db.balances) && Sound(db)
    requires k.account in db.accounts && (c.Create? || c.Post? || c.ReverseOf?) && Step(db, c) != db
    ensures Step(db, c).accounts == db.accounts
    ensures FreeAt(Step(db, c), k) == FreeAt(db, k) + PostedInflow(db, c, k)
  {
    match c
    case Create(request) => CreateFree(db, BuildTransaction(request), k);
    case Post(id, now) => PostFree(db, id, now, k);
    case ReverseOf(_, _, _, _, _, _) => ReverseFree(db, c, k);
  }

  lemma HoldStepFree(db: Db, c: Command, k: BalanceKey)
    requires k.account in db.accounts && HoldCommand(c) && Step(db, c) != db
    ensures Step(db, c).accounts == db.accounts
    ensures FreeAt(Step(db, c), k) == FreeAt(db, k) - NewlyHeld(db, c, k)
  {
    match c
    case Reservation(request) =>
      ReservationChecked(db, request);
      HoldFree(db, BuildHold(request), k);
    case Capture(_, _, _, _) => CloseStepFree(db, c, k);
    case Release(_, _) => CloseStepFree(db, c, k);
  }

  // Every command that changes the tables moves a row's free funds by what
  // it posts to the row and what it sets aside there, and by nothing else.
  lemma StepFree(db: Db, c: Command, k: BalanceKey)
    requires Inv(db) && k.account in db.accounts && Step(db, c) != db
    ensures k.account in Step(db, c).accounts
    ensures FreeAt(Step(db, c), k) == FreeAt(db, k) + PostedInflow(db, c, k) - NewlyHeld(db, c, k)
  {
    if c.Create? || c.Post? || c.ReverseOf? {
      PostingStepFree(db, c, k);
    } else if HoldCommand(c) {
      HoldStepFree(db, c, k);
    }
  }

  // Whether a posting command will go through, from its guards alone: the
  // request is valid, its key and ids are unused, ledger, accounts and states
  // are right, and no column overflows.
  ghost predicate GoesThrough(db: Db, c: Command) {
    match c
    case Create(request) =>
      var t := BuildTransaction(request);
      && CreateRequestFault(request).None? && t.key !in db.keys
      && CreateFault(db, t).None? && Insertable(db, t)
      && TableFits(Applied(db.balances, t.postings, ColumnOf(t.status)))
    case Post(id, _) =>
      var i := FindTx(db.txs, id);
      && i.Some? && db.txs[i.value].status == Draft
      && TableFits(Promoted(db.balances, db.txs[i.value].postings))
    case ReverseOf(id, key, reason, now, revId, ids) =>
      var i := FindTx(db.txs, id);
      && |key| <= 255 && |reason| <= 1024 && EffectiveKey(id, key) !in db.keys
      && i.Some? && ReversalFault(db.txs[i.value], ids).None?
      && var rev := ReversalRow(db.txs[i.value], key, reason, now, revId, ids);
         Insertable(db, rev) && TableFits(Applied(db.balances, rev.postings, PostedColumn))
    case _ => false
  }

  lemma GuardsDecide(db: Db, c: Command)
    requires c.Create? || c.Post? || c.ReverseOf?
    ensures GoesThrough(db, c) <==> Step(db, c) != db
  {
    match c
    case Create(request) => CreateDecides(db, request);
    case Post(id, now) => PostDecides(db, id, now);
    case ReverseOf(_, _, _, _, _, _) => ReverseDecides(db, c);
  }

  lemma CreateDecides(db: Db, request: CreateRequest)
    ensures GoesThrough(db, Create(request)) <==> Step(db, Create(request)) != db
  {
    var t := BuildTransaction(request);
    if GoesThrough(db, Create(request)) {
      assert Step(db, Create(request)).txs == db.txs + [t];
    }
  }

  lemma PostDecides(db: Db, id: Id, now: Time)
    ensures GoesThrough(db, Post(id, now)) <==> Step(db, Post(id, now)) != db
  {
    if GoesThrough(db, Post(id, now)) {
      assert |Step(db, Post(id, now)).outbox| == |db.outbox| + 1;
    }
  }

  lemma ReverseDecides(db: Db, c: Command)
    requires c.ReverseOf?
    ensures GoesThrough(db, c) <==> Step(db, c) != db
  {
    if GoesThrough(db, c) {
      assert |Step(db, c).txs| == |db.txs| + 1;
    }
  }

  // A row whose funds cover its holds stops doing so if and only if a posting
  // command goes through whose net outflow from it exceeds what it has free.
  // Both can be told before the command runs. No hold step ever does it.
  lemma OverdraftExact(db: Db, c: Command, k: BalanceKey)
    requires Inv(db) && k.account in db.accounts && SolventAt(db, k)
    ensures !SolventAt(Step(db, c), k) <==> GoesThrough(db, c) && FreeAt(db, k) < -PostedInflow(db, c, k)
  {
    if c.Create? || c.Post? || c.ReverseOf? {
      GuardsDecide(db, c);
    }
    if Step(db, c) != db {
      StepFree(db, c, k);
      if HoldCommand(c) {
        HoldStepSolvent(db, c, k);
      }
    }
  }

  // It happens: the first payment out of an account leaves it 5 short.
  lemma OverdraftIsReachable()
    ensures var db := Run(EMPTY_DB, SETUP);
            var k := BalanceKey(3, "EUR");
            && k.account in db.accounts && !SolventAt(db, k)
            && Row(db.balances, k).Available(db.accounts[k.account].normal) == -5
  {
    var k := BalanceKey(3, "EUR");
    PaymentCommits();
    AppliedRow(map[], ENTRIES, PostedColumn, k);
    TwoLegs(ENTRIES[0], ENTRIES[1], k, true);
    TwoLegs(ENTRIES[0], ENTRIES[1], k, false);
    assert ENTRIES == [ENTRIES[0], ENTRIES[1]];
    RunKeeps(SETUP);
    AvailableExact(Run(EMPTY_DB, SETUP), k);
  }
}
