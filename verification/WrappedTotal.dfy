// A trial balance whose totals leave int64: two payments of the largest
// amount between four accounts of one ledger. Every stored column is in range,
// so nothing aborts; only the report's own additions wrap around
// (services/ledger-core/internal/adapters/postgres/store.go:1303-1326).
module WrappedTotals {
  import opened Int64
  import opened Wrappers
  import opened Money
  import opened Domain
  import opened LedgerTables
  import opened LedgerSteps
  import opened LedgerInvariant
  import LedgerRuns
  import opened SamplePayments
  import opened TrialBalances

  const HUGE := Amount("EUR", MAX_INT64)
  const FIRST := [Posting(11, 2, Debit, HUGE), Posting(12, 3, Credit, HUGE)]
  const SECOND := [Posting(21, 4, Debit, HUGE), Posting(22, 5, Credit, HUGE)]
  const ONE := CreateRequest(10, 1, "one", "", "", Some(Posted), None, None, FIRST, 0)
  const TWO := CreateRequest(20, 1, "two", "", "", Some(Posted), None, None, SECOND, 0)
  const PAYMENTS := [
    NewLedger(1, "main"),
    NewAccount(2, Account(1, "a", NormalDebit)),
    NewAccount(3, Account(1, "b", NormalCredit)),
    NewAccount(4, Account(1, "c", NormalDebit)),
    NewAccount(5, Account(1, "d", NormalCredit)),
    Create(ONE),
    Create(TWO)]

  const OPENED := Db(
    map[1 := "main"],
    map[2 := Account(1, "a", NormalDebit), 3 := Account(1, "b", NormalCredit),
        4 := Account(1, "c", NormalDebit), 5 := Account(1, "d", NormalCredit)],
    [], map[], [], map[], [])

  lemma AccountsOpen()
    ensures Run(EMPTY_DB, PAYMENTS[..5]) == OPENED
  {
    var one := EMPTY_DB.(ledgers := map[1 := "main"]);
    var two := one.(accounts := map[2 := Account(1, "a", NormalDebit)]);
    var three := two.(accounts := two.accounts[3 := Account(1, "b", NormalCredit)]);
    var four := three.(accounts := three.accounts[4 := Account(1, "c", NormalDebit)]);
    assert Step(EMPTY_DB, PAYMENTS[0]) == one;
    assert Step(one, PAYMENTS[1]) == two;
    assert Step(two, PAYMENTS[2]) == three;
    assert Step(three, PAYMENTS[3]) == four;
    assert Step(four, PAYMENTS[4]) == OPENED;
    RunSnoc(EMPTY_DB, PAYMENTS, 1);
    RunSnoc(EMPTY_DB, PAYMENTS, 2);
    RunSnoc(EMPTY_DB, PAYMENTS, 3);
    RunSnoc(EMPTY_DB, PAYMENTS, 4);
    RunSnoc(EMPTY_DB, PAYMENTS, 5);
  }

  ghost predicate HugePair(ps: seq<Posting>) {
    |ps| == 2 && ps[0].amount == HUGE && ps[1].amount == HUGE && ps[0].direction == Debit && ps[1].direction == Credit
    && ps[0].account != ps[1].account
  }

  lemma HugeSides(ps: seq<Posting>, asset: string)
    requires HugePair(ps)
    ensures SideSum(ps, Debit, asset) == SideSum(ps, Credit, asset) == if asset == "EUR" then MAX_INT64 else 0
  {
    assert ps == [ps[0], ps[1]];
    TwoSides(ps[0], ps[1], Debit, asset);
    TwoSides(ps[0], ps[1], Credit, asset);
  }

  lemma HugeBalanced(ps: seq<Posting>)
    requires HugePair(ps)
    ensures Balanced(ps)
  {
    forall asset
      ensures SideSum(ps, Debit, asset) == SideSum(ps, Credit, asset) == if asset == "EUR" then MAX_INT64 else 0
    {
      HugeSides(ps, asset);
    }
  }

  // What a pair does to a table that has no row for its accounts.
  lemma HugeRow(b: map<BalanceKey, Balance>, ps: seq<Posting>, k: BalanceKey)
    requires HugePair(ps) && KeyOf(ps[0]) !in b && KeyOf(ps[1]) !in b
    ensures k == KeyOf(ps[0]) ==> Row(Applied(b, ps, PostedColumn), k) == Balance(MAX_INT64, 0, 0, 0, 0, 1)
    ensures k == KeyOf(ps[1]) ==> Row(Applied(b, ps, PostedColumn), k) == Balance(0, MAX_INT64, 0, 0, 0, 1)
    ensures k != KeyOf(ps[0]) && k != KeyOf(ps[1]) ==> Row(Applied(b, ps, PostedColumn), k) == Row(b, k)
  {
    assert ps == ([] + [ps[0]]) + [ps[1]];
    AppliedRow(b, ps, PostedColumn, k);
    LegSumSnoc([], ps[0], k, true);
    LegSumSnoc([], ps[0], k, false);
    LegSumSnoc([] + [ps[0]], ps[1], k, true);
    LegSumSnoc([] + [ps[0]], ps[1], k, false);
  }

  lemma HugeTable(b: map<BalanceKey, Balance>, ps: seq<Posting>)
    requires HugePair(ps) && KeyOf(ps[0]) !in b && KeyOf(ps[1]) !in b && TableFits(b)
    ensures TableFits(Applied(b, ps, PostedColumn))
    ensures Applied(b, ps, PostedColumn).Keys == b.Keys + {KeyOf(ps[0]), KeyOf(ps[1])}
  {
    assert Keys(ps) == {KeyOf(ps[0]), KeyOf(ps[1])} by {
      assert ps == [ps[0], ps[1]];
      assert forall p :: p in ps <==> p == ps[0] || p == ps[1];
    }
    forall k | k in Applied(b, ps, PostedColumn)
      ensures RowFits(Applied(b, ps, PostedColumn)[k])
    {
      HugeRow(b, ps, k);
    }
  }

  lemma OpenAccount(id: Id)
    requires 2 <= id <= 5
    ensures id in OPENED.accounts && OPENED.accounts[id].ledger == 1
  {
  }

  lemma OpenPair(ps: seq<Posting>)
    requires |ps| == 2 && 2 <= ps[0].account <= 5 && 2 <= ps[1].account <= 5
    ensures AccountsFault(OPENED.accounts, 1, ps).None?
  {
    OpenAccount(ps[0].account);
    OpenAccount(ps[1].account);
    assert ps[..1][..0] == [];
    assert AccountsFault(OPENED.accounts, 1, ps[..1]).None?;
  }

  // The first payment goes through on the open accounts, the second after it.
  lemma FirstCommits()
    ensures CreateFault(OPENED, BuildTransaction(ONE)).None? && CreateInsert(OPENED, BuildTransaction(ONE)).Committed?
  {
    OpenPair(FIRST);
    HugeTable(map[], FIRST);
  }

  // The tables after the first payment.
  ghost predicate FirstStored(db: Db) {
    && db.ledgers == OPENED.ledgers && db.accounts == OPENED.accounts
    && db.txs == [BuildTransaction(ONE)] && db.keys.Keys == {"one"}
    && db.balances == Applied(map[], FIRST, PostedColumn)
  }

  lemma SecondInsertable(db: Db)
    requires FirstStored(db)
    ensures Insertable(db, BuildTransaction(TWO))
  {
    assert forall q :: q in FIRST ==> q.id == 11 || q.id == 12;
    assert forall p :: p in SECOND ==> p.id == 21 || p.id == 22;
  }

  lemma SecondFits(db: Db)
    requires FirstStored(db)
    ensures TableFits(Applied(db.balances, SECOND, PostedColumn))
  {
    HugeTable(map[], FIRST);
    HugeTable(db.balances, SECOND);
  }

  lemma SecondCommits(db: Db)
    requires FirstStored(db)
    ensures CreateFault(db, BuildTransaction(TWO)).None? && CreateInsert(db, BuildTransaction(TWO)).Committed?
  {
    OpenPair(SECOND);
    SecondInsertable(db);
    SecondFits(db);
  }

  lemma OneStep()
    ensures FirstStored(Run(EMPTY_DB, PAYMENTS[..6]))
  {
    AccountsOpen();
    RunSnoc(EMPTY_DB, PAYMENTS, 6);
    HugeBalanced(FIRST);
    FirstCommits();
    assert Run(EMPTY_DB, PAYMENTS[..6]) == CreateInsert(OPENED, BuildTransaction(ONE)).db;
  }

  lemma TwoSteps()
    ensures var db := Run(EMPTY_DB, PAYMENTS);
            && db.accounts == OPENED.accounts
            && db.txs == [BuildTransaction(ONE), BuildTransaction(TWO)]
            && db.balances == Applied(Applied(map[], FIRST, PostedColumn), SECOND, PostedColumn)
  {
    var db := Run(EMPTY_DB, PAYMENTS[..6]);
    OneStep();
    RunSnoc(EMPTY_DB, PAYMENTS, 7);
    assert PAYMENTS[..7] == PAYMENTS;
    HugeBalanced(SECOND);
    SecondCommits(db);
    assert Run(EMPTY_DB, PAYMENTS) == CreateInsert(db, BuildTransaction(TWO)).db;
  }

  // ---- The report ------------------------------------------------------------------

  const REPORT := [
    TrialRow(BalanceKey(2, "EUR"), MAX_INT64, 0),
    TrialRow(BalanceKey(3, "EUR"), 0, MAX_INT64),
    TrialRow(BalanceKey(4, "EUR"), MAX_INT64, 0),
    TrialRow(BalanceKey(5, "EUR"), 0, MAX_INT64)]

  lemma PaidRow(k: BalanceKey)
    ensures var b := Applied(Applied(map[], FIRST, PostedColumn), SECOND, PostedColumn);
            && (k in b <==> k.asset == "EUR" && 2 <= k.account <= 5)
            && (k in b ==> b[k].postedDebits == (if k.account == 2 || k.account == 4 then MAX_INT64 else 0))
            && (k in b ==> b[k].postedCredits == (if k.account == 2 || k.account == 4 then 0 else MAX_INT64))
  {
    var b := Applied(map[], FIRST, PostedColumn);
    HugeTable(map[], FIRST);
    HugeTable(b, SECOND);
    HugeRow(map[], FIRST, k);
    HugeRow(b, SECOND, k);
  }

  // The tables the report reads: four rows of one ledger.
  ghost predicate PaidTable(db: Db) {
    && (forall k :: k in db.balances <==> k.asset == "EUR" && 2 <= k.account <= 5)
    && (forall k :: k in db.balances ==> InLedger(db, 1, k))
    && (forall k :: k in db.balances ==>
          && db.balances[k].postedDebits == (if k.account == 2 || k.account == 4 then MAX_INT64 else 0)
          && db.balances[k].postedCredits == (if k.account == 2 || k.account == 4 then 0 else MAX_INT64))
  }

  lemma TablePaid(db: Db)
    requires db.accounts == OPENED.accounts
    requires db.balances == Applied(Applied(map[], FIRST, PostedColumn), SECOND, PostedColumn)
    ensures PaidTable(db)
  {
    forall k
      ensures k in db.balances <==> k.asset == "EUR" && 2 <= k.account <= 5
      ensures k in db.balances ==>
                && db.balances[k].postedDebits == (if k.account == 2 || k.account == 4 then MAX_INT64 else 0)
                && db.balances[k].postedCredits == (if k.account == 2 || k.account == 4 then 0 else MAX_INT64)
    {
      PaidRow(k);
    }
    forall k | k in db.balances
      ensures InLedger(db, 1, k)
    {
      OpenAccount(k.account);
    }
  }

  lemma Paid()
    ensures PaidTable(Run(EMPTY_DB, PAYMENTS))
  {
    TwoSteps();
    TablePaid(Run(EMPTY_DB, PAYMENTS));
  }

  lemma ReportRow(db: Db, i: nat)
    requires PaidTable(db) && i < 4
    ensures REPORT[i].key in db.balances && InLedger(db, 1, REPORT[i].key)
    ensures REPORT[i].debits == db.balances[REPORT[i].key].postedDebits
    ensures REPORT[i].credits == db.balances[REPORT[i].key].postedCredits
  {
    assert REPORT[i].key.asset == "EUR" && REPORT[i].key.account == i + 2;
  }

  // What the query returns.
  lemma ReportIsCurrent(db: Db)
    requires PaidTable(db)
    ensures CurrentRows(db, 1, REPORT)
  {
    forall i | 0 <= i < |REPORT|
      ensures && REPORT[i].key in db.balances && InLedger(db, 1, REPORT[i].key)
              && REPORT[i].debits == db.balances[REPORT[i].key].postedDebits
              && REPORT[i].credits == db.balances[REPORT[i].key].postedCredits
    {
      ReportRow(db, i);
    }
    assert forall i :: 0 <= i < |REPORT| ==> REPORT[i].key.account == i + 2;
    assert DistinctKeys(REPORT);
    forall k | k in db.balances
      ensures exists i :: 0 <= i < |REPORT| && REPORT[i].key == k
    {
      assert k == BalanceKey(k.account, k.asset);
      assert REPORT[k.account - 2].key == k;
    }
  }

  lemma TwoTimes(debit: bool)
    ensures LedgerSide([BuildTransaction(ONE), BuildTransaction(TWO)], 1, "EUR", if debit then Debit else Credit, PostedNow)
         == 2 * MAX_INT64
  {
    var txs, d := [BuildTransaction(ONE), BuildTransaction(TWO)], if debit then Debit else Credit;
    HugeSides(FIRST, "EUR");
    HugeSides(SECOND, "EUR");
    assert txs[..1] == [BuildTransaction(ONE)];
    assert txs[..1][..0] == [];
    assert LedgerSide(txs[..1], 1, "EUR", d, PostedNow) == MAX_INT64;
  }

  // The exact totals, whatever order the rows come in.
  lemma TotalsAre(db: Db, rows: seq<TrialRow>)
    requires Inv(db) && CurrentRows(db, 1, rows)
    requires db.txs == [BuildTransaction(ONE), BuildTransaction(TWO)]
    ensures Total(rows, "EUR", true) == Total(rows, "EUR", false) == 2 * MAX_INT64
  {
    CurrentReports(db, 1, rows);
    ReportTotal(db, 1, PostedNow, rows, "EUR", true);
    ReportTotal(db, 1, PostedNow, rows, "EUR", false);
    TwoTimes(true);
    TwoTimes(false);
  }

  lemma TwiceTheLargest()
    ensures !Fits(2 * MAX_INT64) && Wrap(2 * MAX_INT64) == -2
  {
    DivModUnique(2 * MAX_INT64 + TWO_63, 1, TWO_63 - 2);
  }

  // Whatever order the rows come in: the debits add up to twice the largest
  // int64, the report says -2, and still calls the asset balanced.
  lemma TotalWraps(rows: seq<TrialRow>)
    requires CurrentRows(Run(EMPTY_DB, PAYMENTS), 1, rows)
    ensures Total(rows, "EUR", true) == Total(rows, "EUR", false) == 2 * MAX_INT64
    ensures !Fits(Total(rows, "EUR", true))
    ensures Wrap(Total(rows, "EUR", true)) == Wrap(Total(rows, "EUR", false)) == -2
  {
    TwoSteps();
    LedgerRuns.RunKeeps(PAYMENTS);
    TotalsAre(Run(EMPTY_DB, PAYMENTS), rows);
    TwiceTheLargest();
  }

  // The asset is in the report, with the wrong total and the flag still true.
  method Report() returns (out: seq<TrialTotal>)
    ensures CurrentRows(Run(EMPTY_DB, PAYMENTS), 1, REPORT)
    ensures TrialTotal("EUR", -2, -2, true) in out
  {
    out := SumRows(REPORT);
    Paid();
    ReportIsCurrent(Run(EMPTY_DB, PAYMENTS));
    TotalWraps(REPORT);
    assert REPORT[0].key.asset == "EUR" && Mentions(REPORT, "EUR");
    ghost var assets := seq(|out|, i requires 0 <= i < |out| => out[i].asset);
    assert "EUR" in assets;
    ghost var i: nat :| i < |out| && assets[i] == "EUR";
    assert out[i] == TrialTotal("EUR", -2, -2, true);
  }
}
