// What a run can never undo: the ledger is append-only, statuses only move
// forward, gross totals only grow, and reversals form chains with a known
// net effect.
module LedgerHistory {
  import opened Int64
  import opened Wrappers
  import opened Decimal
  import opened Money
  import opened Domain
  import opened Fingerprints
  import opened LedgerTables
  import opened LedgerSteps
  import opened LedgerInvariant
  import opened LedgerRuns

  // ---- Append-only tables ----------------------------------------------------------

  // draft -> posted -> reversed, and nothing else.
  predicate NextStatus(a: TransactionStatus, b: TransactionStatus) {
    a == b || (a == Draft && b == Posted) || (a == Posted && b == Reversed)
  }

  predicate LaterStatus(a: TransactionStatus, b: TransactionStatus) {
    NextStatus(a, b) || (a == Draft && b == Reversed)
  }

  ghost predicate TxLater(t: Transaction, u: Transaction) {
    && Fixed(t) == Fixed(u) && LaterStatus(t.status, u.status)
    && (t.reversedBy.Some? ==> u.reversedBy == t.reversedBy)
  }

  predicate HoldLater(h: Hold, g: Hold) {
    h == g
    || (h.status == Active && (g.status == Captured || g.status == Released)
        && g == h.(status := g.status, capturedTransaction := g.capturedTransaction))
  }

  ghost predicate TxsExtend(txs: seq<Transaction>, txs': seq<Transaction>) {
    |txs| <= |txs'| && forall i :: 0 <= i < |txs| ==> TxLater(txs[i], txs'[i])
  }

  ghost predicate HoldsExtend(holds: seq<HoldRow>, holds': seq<HoldRow>) {
    |holds| <= |holds'|
    && forall i :: 0 <= i < |holds| ==> holds'[i].hash == holds[i].hash && HoldLater(holds[i].hold, holds'[i].hold)
  }

  ghost predicate KeysExtend(keys: map<string, Stored>, keys': map<string, Stored>) {
    forall key :: key in keys ==> key in keys' && keys'[key] == keys[key]
  }

  ghost predicate AccountsExtend(a: map<Id, Account>, a': map<Id, Account>) {
    forall id :: id in a ==> id in a' && a'[id] == a[id]
  }

  ghost predicate Extends(db: Db, after: Db) {
    && TxsExtend(db.txs, after.txs)
    && HoldsExtend(db.holds, after.holds)
    && KeysExtend(db.keys, after.keys)
    && AccountsExtend(db.accounts, after.accounts)
    && db.ledgers.Keys <= after.ledgers.Keys
    && db.outbox <= after.outbox
  }

  lemma ExtendsTransitive(a: Db, b: Db, c: Db)
    requires Extends(a, b) && Extends(b, c)
    ensures Extends(a, c)
  {
    forall i | 0 <= i < |a.txs|
      ensures TxLater(a.txs[i], c.txs[i])
    {
      assert TxLater(a.txs[i], b.txs[i]) && TxLater(b.txs[i], c.txs[i]);
    }
  }

  lemma UpdateExtends(txs: seq<Transaction>, i: nat, t: Transaction)
    requires i < |txs| && TxLater(txs[i], t)
    ensures TxsExtend(txs, txs[i := t])
  {
  }

  lemma CreateExtends(db: Db, t: Transaction)
    ensures Extends(db, CreateTransaction(db, t).0)
  {
    var after := CreateTransaction(db, t).0;
    if after != db {
      assert after.txs == db.txs + [t];
    }
  }

  lemma PostExtends(db: Db, id: Id, now: Time)
    ensures Extends(db, PostTransaction(db, id, now).0)
  {
    var after := PostTransaction(db, id, now).0;
    if after != db {
      var i := FindTx(db.txs, id).value;
      UpdateExtends(db.txs, i, db.txs[i].(status := Posted, postedAt := Some(now)));
    }
  }

  lemma ReverseExtends(db: Db, id: Id, key: string, reason: string, now: Time, revId: Id, ids: seq<Id>)
    ensures Extends(db, ReverseTransaction(db, id, key, reason, now, revId, ids).0)
  {
    var after := ReverseTransaction(db, id, key, reason, now, revId, ids).0;
    if after != db {
      var i := FindTx(db.txs, id).value;
      UpdateExtends(db.txs, i, db.txs[i].(status := Reversed, reversedBy := Some(revId)));
    }
  }

  lemma InsertExtends(db: Db, h: Hold)
    requires HoldInsert(db, h).Committed?
    ensures Extends(db, HoldInsert(db, h).db)
  {
    var after := HoldInsert(db, h).db;
    assert after.holds[..|db.holds|] == db.holds;
  }

  lemma HoldExtends(db: Db, h: Hold)
    ensures Extends(db, CreateHold(db, h).0)
  {
    HoldChecked(db, h);
    Itself(db);
    if CreateHold(db, h).0 != db {
      InsertExtends(db, h);
    }
  }

  lemma CloseExtends(db: Db, i: nat, h: Hold, e: Event)
    requires i < |db.holds| && HoldLater(db.holds[i].hold, h)
    ensures Extends(db, CloseHold(db, i, h, e).0)
  {
  }

  lemma CaptureExtends(db: Db, id: Id, amount: Option<Amount>, transactionId: Option<Id>, now: Time)
    ensures Extends(db, CaptureHold(db, id, amount, transactionId, now).0)
  {
    var i := FindHold(db.holds, id);
    if i.Some? && CaptureFault(db, db.holds[i.value].hold, amount, transactionId).None? {
      var h := db.holds[i.value].hold;
      CloseExtends(db, i.value, h.(status := Captured, capturedTransaction := transactionId),
                   CapturedEvent(h, amount, transactionId, now));
    }
  }

  lemma ReleaseExtends(db: Db, id: Id, now: Time)
    ensures Extends(db, ReleaseHold(db, id, now).0)
  {
    var i := FindHold(db.holds, id);
    if i.Some? && db.holds[i.value].hold.status == Active {
      var h := db.holds[i.value].hold;
      CloseExtends(db, i.value, h.(status := Released),
                   HoldReleased(h.id, h.ledger, h.account, NewEventMoney(h.amount), now));
    }
  }

  lemma Itself(db: Db)
    ensures Extends(db, db)
  {
  }

  lemma RowsExtend(db: Db, c: Command)
    requires c.NewLedger? || c.NewAccount?
    ensures Extends(db, Step(db, c))
  {
  }

  lemma ServiceExtends(db: Db, c: Command)
    requires c.Create? || c.ReverseOf? || c.Reservation? || c.Capture?
    ensures Extends(db, Step(db, c))
  {
    Itself(db);
    if Step(db, c) == db {
    } else if c.Create? {
      CreateExtends(db, BuildTransaction(c.request));
    } else if c.ReverseOf? {
      ReverseExtends(db, c.id, c.key, c.reason, c.now, c.revId, c.ids);
    } else if c.Reservation? {
      HoldExtends(db, BuildHold(c.hold));
    } else {
      CaptureExtends(db, c.id, c.amount, c.transactionId, c.now);
    }
  }

  lemma StepExtends(db: Db, c: Command)
    ensures Extends(db, Step(db, c))
  {
    match c
    case NewLedger(id, name) => RowsExtend(db, c);
    case NewAccount(id, account) => RowsExtend(db, c);
    case Post(id, now) => PostExtends(db, id, now);
    case Release(id, now) => ReleaseExtends(db, id, now);
    case _ => ServiceExtends(db, c);
  }

  // Over any run, from any reachable state, nothing recorded is lost.
  lemma {:induction false} RunExtends(db: Db, cs: seq<Command>)
    requires Inv(db)
    ensures Inv(Run(db, cs)) && Extends(db, Run(db, cs))
  {
    if cs != [] {
      var before := Run(db, cs[..|cs| - 1]);
      RunExtends(db, cs[..|cs| - 1]);
      StepKeeps(before, cs[|cs| - 1]);
      StepExtends(before, cs[|cs| - 1]);
      ExtendsTransitive(db, before, Run(db, cs));
    }
  }

  lemma PostStatus(db: Db, id: Id, now: Time, i: nat)
    requires i < |db.txs|
    ensures i < |PostTransaction(db, id, now).0.txs|
    ensures NextStatus(db.txs[i].status, PostTransaction(db, id, now).0.txs[i].status)
  {
  }

  lemma ReverseStatus(db: Db, id: Id, key: string, reason: string, now: Time, revId: Id, ids: seq<Id>, i: nat)
    requires i < |db.txs|
    ensures i < |ReverseTransaction(db, id, key, reason, now, revId, ids).0.txs|
    ensures NextStatus(db.txs[i].status, ReverseTransaction(db, id, key, reason, now, revId, ids).0.txs[i].status)
  {
  }

  lemma OtherStatus(db: Db, c: Command, i: nat)
    requires i < |db.txs| && !c.Post? && !c.ReverseOf?
    ensures i < |Step(db, c).txs| && Step(db, c).txs[i].status == db.txs[i].status
  {
  }

  // A single step moves a status by at most one transition of the lifecycle.
  lemma StepStatus(db: Db, c: Command, i: nat)
    requires i < |db.txs|
    ensures i < |Step(db, c).txs| && NextStatus(db.txs[i].status, Step(db, c).txs[i].status)
  {
    match c
    case Post(id, now) => PostStatus(db, id, now, i);
    case ReverseOf(id, key, reason, now, revId, ids) => ReverseStatus(db, id, key, reason, now, revId, ids, i);
    case _ => OtherStatus(db, c, i);
  }

  // ---- Gross totals -----------------------------------------------------------------

  lemma {:induction false} TxSumGrows(txs: seq<Transaction>, txs': seq<Transaction>, k: BalanceKey, debit: bool)
    requires TxsExtend(txs, txs')
    requires forall i :: 0 <= i < |txs'| ==> WellFormedPostings(txs'[i].postings)
    ensures TxSum(txs, k, debit, true) <= TxSum(txs', k, debit, true)
    decreases |txs'|
  {
    if txs' != [] {
      var last := |txs'| - 1;
      BalancedNonNegative(txs'[last].postings);
      LegSumPrefix(txs'[last].postings, 0, k, debit);
      if |txs| < |txs'| {
        TxSumGrows(txs, txs'[..last], k, debit);
      } else {
        assert TxLater(txs[last], txs'[last]);
        TxSumGrows(txs[..last], txs'[..last], k, debit);
      }
    }
  }

  // Posted debits and credits never decrease, whatever is reversed or held.
  lemma {:induction false} GrossGrows(db: Db, cs: seq<Command>, k: BalanceKey)
    requires Inv(db)
    ensures Row(db.balances, k).postedDebits <= Row(Run(db, cs).balances, k).postedDebits
    ensures Row(db.balances, k).postedCredits <= Row(Run(db, cs).balances, k).postedCredits
  {
    var after := Run(db, cs);
    RunExtends(db, cs);
    forall i | 0 <= i < |after.txs|
      ensures WellFormedPostings(after.txs[i].postings)
    {
      assert SoundTx(after.ledgers, after.accounts, after.txs[i]);
    }
    assert RowAgrees(db.txs, db.holds, db.balances, k);
    assert RowAgrees(after.txs, after.holds, after.balances, k);
    TxSumGrows(db.txs, after.txs, k, true);
    TxSumGrows(db.txs, after.txs, k, false);
  }

  // ---- Reversals -----------------------------------------------------------------------

  // The part of the invariant reversals rest on.
  ghost predicate LinkedTable(txs: seq<Transaction>) {
    UniqueTxs(txs) && Links(txs) && forall i :: 0 <= i < |txs| ==> WellFormedPostings(txs[i].postings)
  }

  lemma InvLinked(db: Db)
    requires Inv(db)
    ensures LinkedTable(db.txs)
  {
    forall i | 0 <= i < |db.txs|
      ensures WellFormedPostings(db.txs[i].postings)
    {
      assert SoundTx(db.ledgers, db.accounts, db.txs[i]);
    }
  }

  lemma ReversalLink(txs: seq<Transaction>, i: nat, j: nat)
    requires LinkedTable(txs) && i < |txs| && j < |txs|
    requires txs[j].reverses == Some(txs[i].id)
    ensures Linked(txs, i, j)
  {
    assert LinkedRow(txs, j);
    var n :| Linked(txs, n, j);
    assert n == i;
  }

  // A transaction is reversed at most once.
  lemma OneReversal(db: Db, i: nat, j: nat)
    requires Inv(db) && i < |db.txs| && j < |db.txs|
    requires db.txs[i].reverses.Some? && db.txs[i].reverses == db.txs[j].reverses
    ensures i == j
  {
    InvLinked(db);
    LinkedOnce(db.txs, i, j);
  }

  lemma LinkedOnce(txs: seq<Transaction>, i: nat, j: nat)
    requires LinkedTable(txs) && i < |txs| && j < |txs|
    requires txs[i].reverses.Some? && txs[i].reverses == txs[j].reverses
    ensures i == j
  {
    assert LinkedRow(txs, i);
    var a :| Linked(txs, a, i);
    ReversalLink(txs, a, j);
  }

  // reversed_by and reverses are inverse to each other, and the reversal is
  // always the younger row, so following reverses always ends.
  lemma ReversalInverse(db: Db, i: nat, j: nat)
    requires Inv(db) && i < |db.txs| && j < |db.txs|
    ensures db.txs[i].reversedBy == Some(db.txs[j].id) <==> db.txs[j].reverses == Some(db.txs[i].id)
    ensures db.txs[j].reverses == Some(db.txs[i].id) ==> i < j
  {
    InvLinked(db);
    LinkedInverse(db.txs, i, j);
  }

  lemma LinkedInverse(txs: seq<Transaction>, i: nat, j: nat)
    requires LinkedTable(txs) && i < |txs| && j < |txs|
    ensures txs[i].reversedBy == Some(txs[j].id) <==> txs[j].reverses == Some(txs[i].id)
    ensures txs[j].reverses == Some(txs[i].id) ==> i < j
  {
    if txs[i].reversedBy == Some(txs[j].id) {
      assert LinkedRow(txs, i);
      var n :| Linked(txs, i, n);
      assert n == j;
    }
    if txs[j].reverses == Some(txs[i].id) {
      ReversalLink(txs, i, j);
    }
  }

  // Rows c[0], c[1], ...: each reverses the one before it.
  ghost predicate Chain(txs: seq<Transaction>, c: seq<nat>) {
    && c != []
    && (forall n :: 0 <= n < |c| ==> c[n] < |txs|)
    && forall n :: 0 < n < |c| ==> txs[c[n]].reverses == Some(txs[c[n - 1]].id)
  }

  function Net(t: Transaction, k: BalanceKey): int {
    LegSum(t.postings, k, true) - LegSum(t.postings, k, false)
  }

  function Gross(t: Transaction, k: BalanceKey): int {
    LegSum(t.postings, k, true) + LegSum(t.postings, k, false)
  }

  function ChainNet(txs: seq<Transaction>, c: seq<nat>, k: BalanceKey): int
    requires forall n :: 0 <= n < |c| ==> c[n] < |txs|
  {
    if c == [] then 0 else ChainNet(txs, c[..|c| - 1], k) + Net(txs[c[|c| - 1]], k)
  }

  function ChainGross(txs: seq<Transaction>, c: seq<nat>, k: BalanceKey): int
    requires forall n :: 0 <= n < |c| ==> c[n] < |txs|
  {
    if c == [] then 0 else ChainGross(txs, c[..|c| - 1], k) + Gross(txs[c[|c| - 1]], k)
  }

  lemma {:induction false} MirrorLegs(ps: seq<Posting>, qs: seq<Posting>, k: BalanceKey)
    requires MirrorOf(ps, qs) && WellFormedPostings(qs)
    ensures LegSum(ps, k, true) == LegSum(qs, k, false)
    ensures LegSum(ps, k, false) == LegSum(qs, k, true)
  {
    if ps != [] {
      var last := |ps| - 1;
      assert forall i :: 0 <= i < last ==> WellFormedPosting(qs[..last][i]);
      MirrorLegs(ps[..last], qs[..last], k);
      assert WellFormedPosting(qs[last]);
    }
  }

  lemma LinkEffect(txs: seq<Transaction>, i: nat, j: nat, k: BalanceKey)
    requires LinkedTable(txs) && i < |txs| && j < |txs|
    requires txs[j].reverses == Some(txs[i].id)
    ensures Net(txs[j], k) == -Net(txs[i], k)
    ensures Gross(txs[j], k) == Gross(txs[i], k)
  {
    ReversalLink(txs, i, j);
    MirrorLegs(txs[j].postings, txs[i].postings, k);
  }

  // Effect of the n-th link of a chain.
  lemma {:induction false} ChainLink(txs: seq<Transaction>, c: seq<nat>, n: nat, k: BalanceKey)
    requires LinkedTable(txs) && Chain(txs, c) && n < |c|
    ensures Net(txs[c[n]], k) == if n % 2 == 0 then Net(txs[c[0]], k) else -Net(txs[c[0]], k)
    ensures Gross(txs[c[n]], k) == Gross(txs[c[0]], k)
  {
    if n > 0 {
      ChainLink(txs, c, n - 1, k);
      LinkEffect(txs, c[n - 1], c[n], k);
    }
  }

  lemma {:induction false} ChainPrefix(txs: seq<Transaction>, c: seq<nat>, n: nat, k: BalanceKey)
    requires LinkedTable(txs) && Chain(txs, c) && 0 < n <= |c|
    ensures ChainNet(txs, c[..n], k) == if n % 2 == 1 then Net(txs[c[0]], k) else 0
    ensures ChainGross(txs, c[..n], k) == n * Gross(txs[c[0]], k)
  {
    var prefix := c[..n];
    assert prefix[..n - 1] == c[..n - 1];
    ChainLink(txs, c, n - 1, k);
    if n > 1 {
      ChainPrefix(txs, c, n - 1, k);
      OneMore(n - 1, Gross(txs[c[0]], k));
    }
  }

  lemma OneMore(n: nat, g: int)
    ensures n * g + g == (n + 1) * g
  {
  }

  // An original followed by n reversals, each of the one before: the net
  // effect on every account and asset is the original's when n is even and
  // nothing when n is odd, while the gross movement is n + 1 times the
  // original's.
  lemma {:induction false} ChainEffect(db: Db, c: seq<nat>, k: BalanceKey)
    requires Inv(db) && Chain(db.txs, c)
    ensures ChainNet(db.txs, c, k) == if (|c| - 1) % 2 == 0 then Net(db.txs[c[0]], k) else 0
    ensures ChainGross(db.txs, c, k) == |c| * Gross(db.txs[c[0]], k)
  {
    InvLinked(db);
    ChainTotals(db.txs, c, k);
  }

  lemma {:induction false} ChainTotals(txs: seq<Transaction>, c: seq<nat>, k: BalanceKey)
    requires LinkedTable(txs) && Chain(txs, c)
    ensures ChainNet(txs, c, k) == if (|c| - 1) % 2 == 0 then Net(txs[c[0]], k) else 0
    ensures ChainGross(txs, c, k) == |c| * Gross(txs[c[0]], k)
  {
    assert c[..|c|] == c;
    ChainPrefix(txs, c, |c|, k);
  }

  // ---- Holds -------------------------------------------------------------------------------

  predicate HoldCommand(c: Command) {
    c.Reservation? || c.Capture? || c.Release?
  }

  // The row's funds cover its holds. Other rows may be overdrawn.
  ghost predicate SolventAt(db: Db, k: BalanceKey) {
    k.account in db.accounts ==> Row(db.balances, k).Free(db.accounts[k.account].normal) >= 0
  }

  ghost predicate Exact(db: Db, k: BalanceKey) {
    k.account in db.accounts ==>
      var nb := db.accounts[k.account].normal;
      Row(db.balances, k).Available(nb) == Row(db.balances, k).Free(nb)
  }

  lemma FundsThere(db: Db, h: Hold)
    requires Exact(db, HoldKey(h)) && HoldFault(db, h, Row(db.balances, HoldKey(h))).None?
    ensures Funded(db, h)
  {
  }

  ghost predicate Funded(db: Db, h: Hold) {
    h.account in db.accounts
    && Row(db.balances, HoldKey(h)).Free(db.accounts[h.account].normal) >= h.amount.units
  }

  lemma HoldChecked(db: Db, h: Hold)
    ensures CreateHold(db, h).0 == db
            || (&& HoldFault(db, h, Row(db.balances, HoldKey(h))).None?
                && HoldInsert(db, h).Committed? && CreateHold(db, h).0 == HoldInsert(db, h).db)
  {
  }

  // What a reservation does to the tables, if it does anything.
  lemma ReservationChecked(db: Db, request: HoldRequest)
    requires Step(db, Reservation(request)) != db
    ensures HoldInsert(db, BuildHold(request)).Committed?
    ensures HoldFault(db, BuildHold(request), Row(db.balances, HoldKey(BuildHold(request)))).None?
    ensures Step(db, Reservation(request)) == HoldInsert(db, BuildHold(request)).db
  {
    HoldChecked(db, BuildHold(request));
  }

  lemma ReserveFree(b: map<BalanceKey, Balance>, at: BalanceKey, units: int, k: BalanceKey, nb: NormalBalance)
    ensures Row(Reserve(b, at, units), k).Free(nb) == Row(b, k).Free(nb) - if at == k then units else 0
  {
    if at == k {
      var r := Row(b, k);
      assert Row(Reserve(b, at, units), k) == r.(held := r.held + units, version := r.version + 1);
    } else {
      assert Row(Reserve(b, at, units), k) == Row(b, k);
    }
  }

  lemma InsertSolvent(db: Db, h: Hold, k: BalanceKey)
    requires SolventAt(db, k) && Funded(db, h) && HoldInsert(db, h).Committed?
    ensures SolventAt(HoldInsert(db, h).db, k)
  {
    assert HoldInsert(db, h).db.balances == Reserve(db.balances, HoldKey(h), h.amount.units);
    if k.account in db.accounts {
      ReserveFree(db.balances, HoldKey(h), h.amount.units, k, db.accounts[k.account].normal);
    }
  }

  lemma ExactRow(db: Db, k: BalanceKey)
    requires Inv(db)
    ensures Exact(db, k)
  {
    if k.account in db.accounts {
      AvailableExact(db, k);
    }
  }

  lemma CloseSolvent(db: Db, i: nat, h: Hold, e: Event, k: BalanceKey)
    requires SolventAt(db, k) && i < |db.holds| && h.amount.units >= 0
    ensures SolventAt(CloseHold(db, i, h, e).0, k)
  {
  }

  lemma HoldPositive(db: Db, i: nat)
    requires Inv(db) && i < |db.holds|
    ensures db.holds[i].hold.amount.units > 0
  {
    assert HoldRowOk(db.accounts, db.holds[i].hold);
  }

  lemma ReservationSolvent(db: Db, request: HoldRequest, k: BalanceKey)
    requires Exact(db, HoldKey(BuildHold(request))) && SolventAt(db, k)
    ensures SolventAt(Step(db, Reservation(request)), k)
  {
    if Step(db, Reservation(request)) != db {
      ReservationChecked(db, request);
      FundsThere(db, BuildHold(request));
      InsertSolvent(db, BuildHold(request), k);
    }
  }

  lemma CaptureSolvent(db: Db, c: Command, k: BalanceKey)
    requires Inv(db) && c.Capture? && SolventAt(db, k)
    ensures SolventAt(Step(db, c), k)
  {
    var i := FindHold(db.holds, c.id);
    if i.Some? {
      var h := db.holds[i.value].hold;
      HoldPositive(db, i.value);
      CloseSolvent(db, i.value, h.(status := Captured, capturedTransaction := c.transactionId),
                   CapturedEvent(h, c.amount, c.transactionId, c.now), k);
    }
  }

  lemma ReleaseSolvent(db: Db, c: Command, k: BalanceKey)
    requires Inv(db) && c.Release? && SolventAt(db, k)
    ensures SolventAt(Step(db, c), k)
  {
    var i := FindHold(db.holds, c.id);
    if i.Some? {
      var h := db.holds[i.value].hold;
      HoldPositive(db, i.value);
      CloseSolvent(db, i.value, h.(status := Released),
                   HoldReleased(h.id, h.ledger, h.account, NewEventMoney(h.amount), c.now), k);
    }
  }

  lemma HoldStepSolvent(db: Db, c: Command, k: BalanceKey)
    requires Inv(db) && HoldCommand(c) && SolventAt(db, k)
    ensures SolventAt(Step(db, c), k)
  {
    match c
    case Reservation(request) =>
      ExactRow(db, HoldKey(BuildHold(request)));
      ReservationSolvent(db, request, k);
    case Capture(_, _, _, _) => CaptureSolvent(db, c, k);
    case Release(_, _) => ReleaseSolvent(db, c, k);
  }

  // Reserving, capturing and releasing alone never overdraw a row: only
  // postings, which do not look at holds, can.
  lemma {:induction false} HoldRunSolvent(db: Db, cs: seq<Command>, k: BalanceKey)
    requires Inv(db) && SolventAt(db, k)
    requires forall i :: 0 <= i < |cs| ==> HoldCommand(cs[i])
    ensures Inv(Run(db, cs)) && SolventAt(Run(db, cs), k)
  {
    if cs != [] {
      HoldRunSolvent(db, cs[..|cs| - 1], k);
      StepKeeps(Run(db, cs[..|cs| - 1]), cs[|cs| - 1]);
      HoldStepSolvent(Run(db, cs[..|cs| - 1]), cs[|cs| - 1], k);
    }
  }

  // A hold that is no longer active stays exactly as it is.
  lemma {:induction false} ClosedForever(db: Db, cs: seq<Command>, i: nat)
    requires Inv(db) && i < |db.holds| && db.holds[i].hold.status != Active
    ensures i < |Run(db, cs).holds| && Run(db, cs).holds[i].hold == db.holds[i].hold
  {
    RunExtends(db, cs);
    assert HoldLater(db.holds[i].hold, Run(db, cs).holds[i].hold);
  }

  function EventUnits(m: Option<EventMoney>): Option<int> {
    if m.None? then Some(0) else ParseInt(m.value.amount)
  }

  lemma EventAmounts(h: Hold, amount: Option<Amount>, transactionId: Option<Id>, now: Time)
    requires 0 < h.amount.units <= MAX_INT64
    requires amount.Some? ==> 0 < amount.value.units <= h.amount.units
    ensures var e := CapturedEvent(h, amount, transactionId, now);
            && EventUnits(Some(e.captured)).Some? && EventUnits(e.released).Some?
            && EventUnits(Some(e.captured)).value > 0 && EventUnits(e.released).value >= 0
            && EventUnits(Some(e.captured)).value + EventUnits(e.released).value == h.amount.units
  {
    var captured := if amount.Some? then amount.value else h.amount;
    ParseIntText(captured.units);
    ParseIntText(h.amount.units - captured.units);
  }

  lemma CaptureAnnounces(db: Db, id: Id, amount: Option<Amount>, transactionId: Option<Id>, now: Time)
    requires CaptureHold(db, id, amount, transactionId, now).1.Done?
    ensures FindHold(db.holds, id).Some?
    ensures var h := db.holds[FindHold(db.holds, id).value].hold;
            && CaptureFault(db, h, amount, transactionId).None?
            && CaptureHold(db, id, amount, transactionId, now).0.outbox
               == db.outbox + [CapturedEvent(h, amount, transactionId, now)]
  {
  }

  // The announced captured and released amounts add up to the hold.
  lemma CaptureSplits(db: Db, id: Id, amount: Option<Amount>, transactionId: Option<Id>, now: Time)
    requires HoldTable(db.accounts, db.holds) && ServiceCapture(db, id, amount, transactionId, now).1.Done?
    ensures FindHold(db.holds, id).Some?
    ensures var h := db.holds[FindHold(db.holds, id).value].hold;
            var e := CapturedEvent(h, amount, transactionId, now);
            && ServiceCapture(db, id, amount, transactionId, now).0.outbox == db.outbox + [e]
            && EventUnits(Some(e.captured)).Some? && EventUnits(e.released).Some?
            && EventUnits(Some(e.captured)).value > 0 && EventUnits(e.released).value >= 0
            && EventUnits(Some(e.captured)).value + EventUnits(e.released).value == h.amount.units
  {
    CaptureAnnounces(db, id, amount, transactionId, now);
    var h := db.holds[FindHold(db.holds, id).value].hold;
    assert HoldRowOk(db.accounts, h);
    EventAmounts(h, amount, transactionId, now);
  }
}
