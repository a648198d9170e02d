// The trial balance, current and historical, and ledger-wide conservation
// (services/ledger-core/internal/adapters/postgres/store.go:1259-1330).
module TrialBalances {
  import opened Int64
  import opened Wrappers
  import opened Money
  import opened Domain
  import opened LedgerTables
  import opened LedgerInvariant
  import LedgerRuns

  // Which transactions a report counts.
  datatype Scope = PostedNow | PendingNow | PostedAsOf(at: Time)

  predicate Counted(t: Transaction, scope: Scope) {
    match scope
    case PostedNow => Firm(t.status)
    case PendingNow => !Firm(t.status)
    case PostedAsOf(at) => Firm(t.status) && t.effectiveAt <= at
  }

  function Sum(txs: seq<Transaction>, k: BalanceKey, debit: bool, scope: Scope): int {
    if txs == [] then 0
    else
      var t := txs[|txs| - 1];
      Sum(txs[..|txs| - 1], k, debit, scope) + if Counted(t, scope) then LegSum(t.postings, k, debit) else 0
  }

  // ---- Query results -----------------------------------------------------------

  datatype TrialRow = TrialRow(key: BalanceKey, debits: int, credits: int)

  datatype TrialTotal = TrialTotal(asset: string, debits: int, credits: int, balanced: bool)

  ghost predicate InLedger(db: Db, ledger: Id, k: BalanceKey) {
    k.account in db.accounts && db.accounts[k.account].ledger == ledger
  }

  // Some counted posting hits k.
  ghost predicate Hit(txs: seq<Transaction>, k: BalanceKey, scope: Scope) {
    exists i :: 0 <= i < |txs| && Counted(txs[i], scope) && k in Keys(txs[i].postings)
  }

  ghost predicate DistinctKeys(rows: seq<TrialRow>) {
    forall i, j :: 0 <= i < j < |rows| ==> rows[i].key != rows[j].key
  }

  // The rows carry the sums of the scope and miss no counted posting of the
  // ledger.
  ghost predicate Reports(db: Db, ledger: Id, scope: Scope, rows: seq<TrialRow>) {
    && DistinctKeys(rows)
    && (forall i :: 0 <= i < |rows| ==>
          && InLedger(db, ledger, rows[i].key)
          && rows[i].debits == Sum(db.txs, rows[i].key, true, scope)
          && rows[i].credits == Sum(db.txs, rows[i].key, false, scope))
    && (forall k :: Hit(db.txs, k, scope) && InLedger(db, ledger, k) ==>
          exists i :: 0 <= i < |rows| && rows[i].key == k)
  }

  // SELECT ... FROM account_balances: the derived rows of the ledger.
  ghost predicate CurrentRows(db: Db, ledger: Id, rows: seq<TrialRow>) {
    && DistinctKeys(rows)
    && (forall i :: 0 <= i < |rows| ==>
          && rows[i].key in db.balances && InLedger(db, ledger, rows[i].key)
          && rows[i].debits == db.balances[rows[i].key].postedDebits
          && rows[i].credits == db.balances[rows[i].key].postedCredits)
    && (forall k :: k in db.balances && InLedger(db, ledger, k) ==>
          exists i :: 0 <= i < |rows| && rows[i].key == k)
  }

  // SELECT ... FROM postings GROUP BY account, asset: one row per group.
  ghost predicate HistoricalRows(db: Db, ledger: Id, at: Time, rows: seq<TrialRow>) {
    && Reports(db, ledger, PostedAsOf(at), rows)
    && forall i :: 0 <= i < |rows| ==> Hit(db.txs, rows[i].key, PostedAsOf(at))
  }

  // ---- Totals ---------------------------------------------------------------------

  function Total(rows: seq<TrialRow>, asset: string, debit: bool): int {
    if rows == [] then 0
    else
      var r := rows[|rows| - 1];
      Total(rows[..|rows| - 1], asset, debit)
      + if r.key.asset == asset then (if debit then r.debits else r.credits) else 0
  }

  ghost predicate Mentions(rows: seq<TrialRow>, asset: string) {
    exists i :: 0 <= i < |rows| && rows[i].key.asset == asset
  }

  // Some row of asset a comes before every row of asset b.
  ghost predicate Precedes(rows: seq<TrialRow>, a: string, b: string) {
    exists n :: 0 <= n < |rows| && rows[n].key.asset == a && forall m :: 0 <= m <= n ==> rows[m].key.asset != b
  }

  // Every asset of the rows, once, in order of first appearance.
  ghost predicate ListsAssets(assets: seq<string>, rows: seq<TrialRow>) {
    && (forall i, j :: 0 <= i < j < |assets| ==> Precedes(rows, assets[i], assets[j]))
    && (forall a :: a in assets <==> Mentions(rows, a))
  }

  ghost predicate TotalsOf(totals: map<string, TrialTotal>, rows: seq<TrialRow>) {
    forall a :: a in totals ==>
      && totals[a].asset == a
      && totals[a].debits == Wrap(Total(rows, a, true))
      && totals[a].credits == Wrap(Total(rows, a, false))
  }

  // The loop over the rows: int64 totals per asset, wrapping silently, in
  // order of first appearance, each with its balanced flag.
  method SumRows(rows: seq<TrialRow>) returns (out: seq<TrialTotal>)
    ensures ListsAssets(seq(|out|, i requires 0 <= i < |out| => out[i].asset), rows)
    ensures forall i :: 0 <= i < |out| ==>
              && out[i].debits == Wrap(Total(rows, out[i].asset, true))
              && out[i].credits == Wrap(Total(rows, out[i].asset, false))
              && out[i].balanced == (out[i].debits == out[i].credits)
  {
    var totals: map<string, TrialTotal> := map[];
    var order: seq<string> := [];
    for n := 0 to |rows|
      invariant totals.Keys == set a | a in order
      invariant ListsAssets(order, rows[..n])
      invariant TotalsOf(totals, rows[..n])
    {
      totals, order := AddRow(totals, order, rows, n);
    }
    assert rows[..|rows|] == rows;
    out := [];
    for i := 0 to |order|
      invariant |out| == i
      invariant forall j :: 0 <= j < i ==> out[j].asset == order[j]
      invariant forall j :: 0 <= j < i ==>
                  && out[j].debits == Wrap(Total(rows, order[j], true))
                  && out[j].credits == Wrap(Total(rows, order[j], false))
                  && out[j].balanced == (out[j].debits == out[j].credits)
    {
      var t := totals[order[i]];
      out := out + [t.(balanced := t.debits == t.credits)];
    }
    assert seq(|out|, i requires 0 <= i < |out| => out[i].asset) == order;
  }

  method AddRow(totals: map<string, TrialTotal>, order: seq<string>, rows: seq<TrialRow>, n: nat)
    returns (totals': map<string, TrialTotal>, order': seq<string>)
    requires n < |rows|
    requires totals.Keys == set a | a in order
    requires ListsAssets(order, rows[..n]) && TotalsOf(totals, rows[..n])
    ensures totals'.Keys == set a | a in order'
    ensures ListsAssets(order', rows[..n + 1]) && TotalsOf(totals', rows[..n + 1])
  {
    var r := rows[n];
    var asset := r.key.asset;
    var t := TrialTotal(asset, 0, 0, false);
    order' := order;
    if asset in totals {
      t := totals[asset];
    } else {
      order' := order + [asset];
      AbsentTotal(rows[..n], asset);
    }
    t := t.(debits := Wrap(t.debits + r.debits), credits := Wrap(t.credits + r.credits));
    totals' := totals[asset := t];
    assert rows[..n + 1] == rows[..n] + [r];
    TotalsSnoc(totals, rows[..n], r, t);
    AssetsSnoc(order, rows[..n], r);
  }

  lemma {:induction false} TotalsSnoc(totals: map<string, TrialTotal>, rows: seq<TrialRow>, r: TrialRow, t: TrialTotal)
    requires TotalsOf(totals, rows) && t.asset == r.key.asset
    requires t.debits == Wrap(Wrap(Total(rows, t.asset, true)) + r.debits)
    requires t.credits == Wrap(Wrap(Total(rows, t.asset, false)) + r.credits)
    ensures TotalsOf(totals[t.asset := t], rows + [r])
  {
    WrapAbsorbs(Total(rows, t.asset, true), r.debits);
    WrapAbsorbs(Total(rows, t.asset, false), r.credits);
    forall a | a in totals[t.asset := t]
      ensures totals[t.asset := t][a].debits == Wrap(Total(rows + [r], a, true))
      ensures totals[t.asset := t][a].credits == Wrap(Total(rows + [r], a, false))
    {
      TotalSnoc(rows, r, a);
    }
  }

  lemma AssetsSnoc(order: seq<string>, rows: seq<TrialRow>, r: TrialRow)
    requires ListsAssets(order, rows)
    ensures ListsAssets(if r.key.asset in order then order else order + [r.key.asset], rows + [r])
  {
    var more := if r.key.asset in order then order else order + [r.key.asset];
    forall a
      ensures Mentions(rows + [r], a) <==> Mentions(rows, a) || a == r.key.asset
    {
      if i :| 0 <= i < |rows| && rows[i].key.asset == a {
        assert (rows + [r])[i].key.asset == a;
      }
      assert (rows + [r])[|rows|] == r;
    }
    forall i, j | 0 <= i < j < |more|
      ensures Precedes(rows + [r], more[i], more[j])
    {
      PrecedesSnoc(rows, r, more[i], more[j]);
      assert more[i] == order[i] && more[i] in order;
      assert j == |order| ==> !Mentions(rows, more[j]);
    }
  }

  lemma PrecedesSnoc(rows: seq<TrialRow>, r: TrialRow, a: string, b: string)
    ensures Precedes(rows, a, b) ==> Precedes(rows + [r], a, b)
    ensures Mentions(rows, a) && !Mentions(rows, b) ==> Precedes(rows + [r], a, b)
  {
    var after := rows + [r];
    if Mentions(rows, a) && !Mentions(rows, b) {
      assert Precedes(rows, a, b);
    }
    if Precedes(rows, a, b) {
      var n :| 0 <= n < |rows| && rows[n].key.asset == a && forall m :: 0 <= m <= n ==> rows[m].key.asset != b;
      assert after[n].key.asset == a && forall m :: 0 <= m <= n ==> after[m] == rows[m];
    }
  }

  lemma TotalSnoc(rows: seq<TrialRow>, r: TrialRow, asset: string)
    ensures Total(rows + [r], asset, true) == Total(rows, asset, true) + if r.key.asset == asset then r.debits else 0
    ensures Total(rows + [r], asset, false) == Total(rows, asset, false) + if r.key.asset == asset then r.credits else 0
  {
    assert (rows + [r])[..|rows|] == rows;
  }

  lemma {:induction false} AbsentTotal(rows: seq<TrialRow>, asset: string)
    requires forall i :: 0 <= i < |rows| ==> rows[i].key.asset != asset
    ensures Total(rows, asset, true) == 0 && Total(rows, asset, false) == 0
  {
    if rows != [] {
      AbsentTotal(rows[..|rows| - 1], asset);
    }
  }

  // ---- Exchanging the order of summation ----------------------------------------------

  // Contribution of one list of postings to the total of a column.
  function Contribution(rows: seq<TrialRow>, asset: string, ps: seq<Posting>, debit: bool): int {
    if rows == [] then 0
    else
      var k := rows[|rows| - 1].key;
      Contribution(rows[..|rows| - 1], asset, ps, debit) + if k.asset == asset then LegSum(ps, k, debit) else 0
  }

  lemma {:induction false} NoContribution(rows: seq<TrialRow>, asset: string, ps: seq<Posting>, debit: bool)
    requires forall i :: 0 <= i < |rows| && rows[i].key.asset == asset ==> rows[i].key !in Keys(ps)
    ensures Contribution(rows, asset, ps, debit) == 0
  {
    if rows != [] {
      NoContribution(rows[..|rows| - 1], asset, ps, debit);
      var k := rows[|rows| - 1].key;
      if k.asset == asset {
        Untouched(ps, k, debit);
      }
    }
  }

  // Contribution of a single posting, met by at most one row.
  lemma {:induction false} ContributionSnoc(rows: seq<TrialRow>, asset: string, ps: seq<Posting>, p: Posting, debit: bool)
    requires DistinctKeys(rows)
    ensures var met := exists i :: 0 <= i < |rows| && rows[i].key == KeyOf(p);
            Contribution(rows, asset, ps + [p], debit)
            == Contribution(rows, asset, ps, debit)
               + if met && p.amount.asset == asset then Leg(p, KeyOf(p), debit) else 0
  {
    if rows != [] {
      var init := rows[..|rows| - 1];
      var k := rows[|rows| - 1].key;
      ContributionSnoc(init, asset, ps, p, debit);
      LegSumSnoc(ps, p, k, debit);
      if k == KeyOf(p) {
        assert forall i :: 0 <= i < |init| ==> init[i].key != k;
      } else {
        assert (exists i :: 0 <= i < |rows| && rows[i].key == KeyOf(p))
            <==> exists i :: 0 <= i < |init| && init[i].key == KeyOf(p) by {
          if i :| 0 <= i < |rows| && rows[i].key == KeyOf(p) {
            assert init[i].key == KeyOf(p);
          }
          if i :| 0 <= i < |init| && init[i].key == KeyOf(p) {
            assert rows[i].key == KeyOf(p);
          }
        }
      }
    }
  }

  ghost predicate Covers(rows: seq<TrialRow>, ps: seq<Posting>) {
    forall p :: p in ps ==> exists i :: 0 <= i < |rows| && rows[i].key == KeyOf(p)
  }

  lemma {:induction false} FullContribution(rows: seq<TrialRow>, asset: string, ps: seq<Posting>, debit: bool)
    requires DistinctKeys(rows) && Covers(rows, ps) && WellFormedPostings(ps)
    ensures Contribution(rows, asset, ps, debit) == SideSum(ps, if debit then Debit else Credit, asset)
  {
    if ps == [] {
      NoContribution(rows, asset, ps, debit);
    } else {
      var init, p := ps[..|ps| - 1], ps[|ps| - 1];
      assert forall q :: q in init ==> q in ps;
      assert p in ps && WellFormedPosting(p);
      FullContribution(rows, asset, init, debit);
      ContributionSnoc(rows, asset, init, p, debit);
      assert ps == init + [p];
    }
  }

  // What the rows add up to when they carry the sums of a scope.
  function Grand(rows: seq<TrialRow>, asset: string, txs: seq<Transaction>, debit: bool, scope: Scope): int {
    if txs == [] then 0
    else
      var t := txs[|txs| - 1];
      Grand(rows, asset, txs[..|txs| - 1], debit, scope)
      + if Counted(t, scope) then Contribution(rows, asset, t.postings, debit) else 0
  }

  lemma {:induction false} GrandRows(rows: seq<TrialRow>, asset: string, txs: seq<Transaction>, debit: bool, scope: Scope)
    requires rows != []
    ensures var k := rows[|rows| - 1].key;
            Grand(rows, asset, txs, debit, scope)
            == Grand(rows[..|rows| - 1], asset, txs, debit, scope)
               + if k.asset == asset then Sum(txs, k, debit, scope) else 0
  {
    if txs != [] {
      GrandRows(rows, asset, txs[..|txs| - 1], debit, scope);
    }
  }

  lemma {:induction false} GrandEmpty(asset: string, txs: seq<Transaction>, debit: bool, scope: Scope)
    ensures Grand([], asset, txs, debit, scope) == 0
  {
    if txs != [] {
      GrandEmpty(asset, txs[..|txs| - 1], debit, scope);
    }
  }

  lemma {:induction false} TotalIsGrand(rows: seq<TrialRow>, asset: string, txs: seq<Transaction>, debit: bool, scope: Scope)
    requires forall i :: 0 <= i < |rows| ==>
               && rows[i].debits == Sum(txs, rows[i].key, true, scope)
               && rows[i].credits == Sum(txs, rows[i].key, false, scope)
    ensures Total(rows, asset, debit) == Grand(rows, asset, txs, debit, scope)
  {
    if rows == [] {
      GrandEmpty(asset, txs, debit, scope);
    } else {
      TotalIsGrand(rows[..|rows| - 1], asset, txs, debit, scope);
      GrandRows(rows, asset, txs, debit, scope);
    }
  }

  // ---- Conservation -----------------------------------------------------------------------

  // One side of one asset over the counted transactions of a ledger: what a
  // report's total should be, without going through accounts.
  function LedgerSide(txs: seq<Transaction>, ledger: Id, asset: string, d: Direction, scope: Scope): int {
    if txs == [] then 0
    else
      var t := txs[|txs| - 1];
      LedgerSide(txs[..|txs| - 1], ledger, asset, d, scope)
      + if Counted(t, scope) && t.ledger == ledger then SideSum(t.postings, d, asset) else 0
  }

  // A transaction enters the report in full when it belongs to the ledger, and
  // not at all otherwise.
  ghost predicate Whole(rows: seq<TrialRow>, asset: string, t: Transaction, ledger: Id, debit: bool) {
    Contribution(rows, asset, t.postings, debit)
    == if t.ledger == ledger then SideSum(t.postings, if debit then Debit else Credit, asset) else 0
  }

  lemma {:induction false} WholeContribution(db: Db, ledger: Id, scope: Scope, rows: seq<TrialRow>, asset: string, i: nat, debit: bool)
    requires Inv(db) && Reports(db, ledger, scope, rows)
    requires i < |db.txs| && Counted(db.txs[i], scope)
    ensures Whole(rows, asset, db.txs[i], ledger, debit)
  {
    var t := db.txs[i];
    assert SoundTx(db.ledgers, db.accounts, t);
    if t.ledger == ledger {
      assert Covers(rows, t.postings) by {
        forall p | p in t.postings
          ensures exists n :: 0 <= n < |rows| && rows[n].key == KeyOf(p)
        {
          assert KeyOf(p) in Keys(t.postings);
          assert Hit(db.txs, KeyOf(p), scope);
        }
      }
      FullContribution(rows, asset, t.postings, debit);
    } else {
      forall n | 0 <= n < |rows|
        ensures rows[n].key !in Keys(t.postings)
      {
        assert InLedger(db, ledger, rows[n].key);
      }
      NoContribution(rows, asset, t.postings, debit);
    }
  }

  lemma {:induction false} GrandSide(txs: seq<Transaction>, ledger: Id, scope: Scope, rows: seq<TrialRow>, asset: string, debit: bool)
    requires forall i :: 0 <= i < |txs| && Counted(txs[i], scope) ==> Whole(rows, asset, txs[i], ledger, debit)
    ensures Grand(rows, asset, txs, debit, scope)
         == LedgerSide(txs, ledger, asset, if debit then Debit else Credit, scope)
  {
    if txs != [] {
      GrandSide(txs[..|txs| - 1], ledger, scope, rows, asset, debit);
    }
  }

  // A report's totals are the ledger's own.
  lemma ReportTotal(db: Db, ledger: Id, scope: Scope, rows: seq<TrialRow>, asset: string, debit: bool)
    requires Inv(db) && Reports(db, ledger, scope, rows)
    ensures Total(rows, asset, debit)
         == LedgerSide(db.txs, ledger, asset, if debit then Debit else Credit, scope)
  {
    forall i | 0 <= i < |db.txs| && Counted(db.txs[i], scope)
      ensures Whole(rows, asset, db.txs[i], ledger, debit)
    {
      WholeContribution(db, ledger, scope, rows, asset, i, debit);
    }
    GrandSide(db.txs, ledger, scope, rows, asset, debit);
    TotalIsGrand(rows, asset, db.txs, debit, scope);
  }

  lemma {:induction false} EvenSides(db: Db, ledger: Id, asset: string, scope: Scope, n: nat)
    requires Inv(db) && n <= |db.txs|
    ensures LedgerSide(db.txs[..n], ledger, asset, Debit, scope) == LedgerSide(db.txs[..n], ledger, asset, Credit, scope)
  {
    if n > 0 {
      EvenSides(db, ledger, asset, scope, n - 1);
      assert db.txs[..n][..n - 1] == db.txs[..n - 1];
      assert SoundTx(db.ledgers, db.accounts, db.txs[n - 1]);
    }
  }

  // Conservation: in every reachable state, for every ledger and asset, the
  // debits of a report equal its credits - posted now, pending now, or posted
  // as of any instant.
  lemma {:induction false} Conservation(db: Db, ledger: Id, scope: Scope, rows: seq<TrialRow>, asset: string)
    requires Inv(db) && Reports(db, ledger, scope, rows)
    ensures Total(rows, asset, true) == Total(rows, asset, false)
  {
    ReportTotal(db, ledger, scope, rows, asset, true);
    ReportTotal(db, ledger, scope, rows, asset, false);
    EvenSides(db, ledger, asset, scope, |db.txs|);
    assert db.txs[..|db.txs|] == db.txs;
  }

  lemma {:induction false} PostedSum(txs: seq<Transaction>, k: BalanceKey, debit: bool)
    ensures Sum(txs, k, debit, PostedNow) == TxSum(txs, k, debit, true)
    ensures Sum(txs, k, debit, PendingNow) == TxSum(txs, k, debit, false)
  {
    if txs != [] {
      PostedSum(txs[..|txs| - 1], k, debit);
    }
  }

  // The derived rows are a faithful report of what was posted.
  lemma CurrentReports(db: Db, ledger: Id, rows: seq<TrialRow>)
    requires Inv(db) && CurrentRows(db, ledger, rows)
    ensures Reports(db, ledger, PostedNow, rows)
  {
    forall i | 0 <= i < |rows|
      ensures rows[i].debits == Sum(db.txs, rows[i].key, true, PostedNow)
      ensures rows[i].credits == Sum(db.txs, rows[i].key, false, PostedNow)
    {
      assert RowAgrees(db.txs, db.holds, db.balances, rows[i].key);
      PostedSum(db.txs, rows[i].key, true);
      PostedSum(db.txs, rows[i].key, false);
    }
  }

  // Every balanced flag of either report is true, even where the int64
  // totals have wrapped around.
  lemma AlwaysBalanced(db: Db, ledger: Id, rows: seq<TrialRow>, at: Time, out: seq<TrialTotal>)
    requires Inv(db)
    requires CurrentRows(db, ledger, rows) || HistoricalRows(db, ledger, at, rows)
    requires forall i :: 0 <= i < |out| ==>
               && out[i].debits == Wrap(Total(rows, out[i].asset, true))
               && out[i].credits == Wrap(Total(rows, out[i].asset, false))
               && out[i].balanced == (out[i].debits == out[i].credits)
    ensures forall i :: 0 <= i < |out| ==> out[i].balanced
    ensures forall i :: 0 <= i < |out| ==>
              (out[i].debits == Total(rows, out[i].asset, true) <==> Fits(Total(rows, out[i].asset, true)))
  {
    forall i | 0 <= i < |out|
      ensures Total(rows, out[i].asset, true) == Total(rows, out[i].asset, false)
    {
      if CurrentRows(db, ledger, rows) {
        CurrentReports(db, ledger, rows);
        Conservation(db, ledger, PostedNow, rows, out[i].asset);
      } else {
        Conservation(db, ledger, PostedAsOf(at), rows, out[i].asset);
      }
    }
  }

  // ---- Historical against current --------------------------------------------------------

  // Everything posted in the ledger is effective by at.
  ghost predicate AllBy(txs: seq<Transaction>, ledger: Id, at: Time) {
    forall i :: 0 <= i < |txs| && txs[i].ledger == ledger && Firm(txs[i].status) ==> txs[i].effectiveAt <= at
  }

  ghost predicate HitsBy(txs: seq<Transaction>, k: BalanceKey, at: Time) {
    forall i :: 0 <= i < |txs| && Firm(txs[i].status) && k in Keys(txs[i].postings) ==> txs[i].effectiveAt <= at
  }

  lemma {:induction false} LateSum(txs: seq<Transaction>, k: BalanceKey, debit: bool, at: Time)
    requires HitsBy(txs, k, at)
    ensures Sum(txs, k, debit, PostedAsOf(at)) == Sum(txs, k, debit, PostedNow)
  {
    if txs != [] {
      LateSum(txs[..|txs| - 1], k, debit, at);
      var ps := txs[|txs| - 1].postings;
      if k !in Keys(ps) {
        Untouched(ps, k, debit);
      }
    }
  }

  // Only the ledger's own transactions hit its accounts.
  lemma OwnHits(db: Db, ledger: Id, at: Time, k: BalanceKey)
    requires Inv(db) && InLedger(db, ledger, k) && AllBy(db.txs, ledger, at)
    ensures HitsBy(db.txs, k, at)
  {
    forall i | 0 <= i < |db.txs| && k in Keys(db.txs[i].postings)
      ensures db.txs[i].ledger == ledger
    {
      assert SoundTx(db.ledgers, db.accounts, db.txs[i]);
    }
  }

  // A row that some counted posting hits is not zero, and only such rows
  // are not zero.
  lemma {:induction false} HitSums(txs: seq<Transaction>, k: BalanceKey, scope: Scope)
    requires forall i :: 0 <= i < |txs| ==> WellFormedPostings(txs[i].postings)
    ensures Sum(txs, k, true, scope) >= 0 && Sum(txs, k, false, scope) >= 0
    ensures Hit(txs, k, scope) <==> Sum(txs, k, true, scope) + Sum(txs, k, false, scope) > 0
  {
    if txs != [] {
      var init, t := txs[..|txs| - 1], txs[|txs| - 1];
      HitSums(init, k, scope);
      HitLegs(t.postings, k);
      assert Hit(txs, k, scope) <==> Hit(init, k, scope) || (Counted(t, scope) && k in Keys(t.postings)) by {
        if Hit(init, k, scope) {
          var i :| 0 <= i < |init| && Counted(init[i], scope) && k in Keys(init[i].postings);
          assert Counted(txs[i], scope) && k in Keys(txs[i].postings);
        }
        if Hit(txs, k, scope) {
          var i :| 0 <= i < |txs| && Counted(txs[i], scope) && k in Keys(txs[i].postings);
          assert i < |init| ==> Counted(init[i], scope) && k in Keys(init[i].postings);
        }
      }
    }
  }

  lemma {:induction false} HitLegs(ps: seq<Posting>, k: BalanceKey)
    requires WellFormedPostings(ps)
    ensures LegSum(ps, k, true) >= 0 && LegSum(ps, k, false) >= 0
    ensures k in Keys(ps) <==> LegSum(ps, k, true) + LegSum(ps, k, false) > 0
  {
    if ps != [] {
      var init, p := ps[..|ps| - 1], ps[|ps| - 1];
      HitLegs(init, k);
      assert WellFormedPosting(p);
      assert ps == init + [p];
      KeysSnoc(init, p);
    }
  }

  // The sums of one key of the ledger, in both reports.
  lemma LateKey(db: Db, ledger: Id, at: Time, k: BalanceKey)
    requires Inv(db) && InLedger(db, ledger, k) && AllBy(db.txs, ledger, at)
    ensures Sum(db.txs, k, true, PostedAsOf(at)) == Sum(db.txs, k, true, PostedNow) >= 0
    ensures Sum(db.txs, k, false, PostedAsOf(at)) == Sum(db.txs, k, false, PostedNow) >= 0
    ensures Hit(db.txs, k, PostedNow) <==> Hit(db.txs, k, PostedAsOf(at))
    ensures Hit(db.txs, k, PostedNow) <==> Sum(db.txs, k, true, PostedNow) + Sum(db.txs, k, false, PostedNow) > 0
  {
    WellFormedTxs(db);
    OwnHits(db, ledger, at, k);
    LateSum(db.txs, k, true, at);
    LateSum(db.txs, k, false, at);
    HitSums(db.txs, k, PostedNow);
    HitSums(db.txs, k, PostedAsOf(at));
  }

  // Two reports of the same sums agree on every row that is not zero.
  lemma SameRow(db: Db, ledger: Id, a: Scope, rows: seq<TrialRow>, b: Scope, others: seq<TrialRow>, row: TrialRow)
    requires Reports(db, ledger, a, rows) && Reports(db, ledger, b, others)
    requires Sum(db.txs, row.key, true, a) == Sum(db.txs, row.key, true, b)
    requires Sum(db.txs, row.key, false, a) == Sum(db.txs, row.key, false, b)
    requires row in rows && Hit(db.txs, row.key, b)
    ensures row in others
  {
    var i :| 0 <= i < |rows| && rows[i] == row;
    var j :| 0 <= j < |others| && others[j].key == row.key;
    assert others[j] == row;
  }

  // As of an instant no earlier than any effective date of the ledger, the
  // historical report has exactly the non-zero rows of the current one.
  lemma LateRowsAgree(db: Db, ledger: Id, at: Time, current: seq<TrialRow>, past: seq<TrialRow>, row: TrialRow)
    requires Inv(db) && CurrentRows(db, ledger, current) && HistoricalRows(db, ledger, at, past)
    requires AllBy(db.txs, ledger, at)
    ensures row in past <==> row in current && (row.debits != 0 || row.credits != 0)
  {
    CurrentReports(db, ledger, current);
    if row in past {
      PastRow(db, ledger, at, current, past, row);
    }
    if row in current && (row.debits != 0 || row.credits != 0) {
      CurrentRow(db, ledger, at, current, past, row);
    }
  }

  lemma PastRow(db: Db, ledger: Id, at: Time, current: seq<TrialRow>, past: seq<TrialRow>, row: TrialRow)
    requires Inv(db) && Reports(db, ledger, PostedNow, current) && HistoricalRows(db, ledger, at, past)
    requires AllBy(db.txs, ledger, at) && row in past
    ensures row in current && (row.debits != 0 || row.credits != 0)
  {
    var i :| 0 <= i < |past| && past[i] == row;
    LateKey(db, ledger, at, row.key);
    SameRow(db, ledger, PostedAsOf(at), past, PostedNow, current, row);
  }

  lemma CurrentRow(db: Db, ledger: Id, at: Time, current: seq<TrialRow>, past: seq<TrialRow>, row: TrialRow)
    requires Inv(db) && Reports(db, ledger, PostedNow, current) && Reports(db, ledger, PostedAsOf(at), past)
    requires AllBy(db.txs, ledger, at) && row in current && (row.debits != 0 || row.credits != 0)
    ensures row in past
  {
    var i :| 0 <= i < |current| && current[i] == row;
    LateKey(db, ledger, at, row.key);
    SameRow(db, ledger, PostedNow, current, PostedAsOf(at), past, row);
  }

  lemma {:induction false} LateSide(txs: seq<Transaction>, ledger: Id, asset: string, d: Direction, at: Time)
    requires AllBy(txs, ledger, at)
    ensures LedgerSide(txs, ledger, asset, d, PostedAsOf(at)) == LedgerSide(txs, ledger, asset, d, PostedNow)
  {
    if txs != [] {
      LateSide(txs[..|txs| - 1], ledger, asset, d, at);
    }
  }

  // ... and the same totals.
  lemma LateTotalsAgree(db: Db, ledger: Id, at: Time, current: seq<TrialRow>, past: seq<TrialRow>, asset: string, debit: bool)
    requires Inv(db) && CurrentRows(db, ledger, current) && HistoricalRows(db, ledger, at, past)
    requires AllBy(db.txs, ledger, at)
    ensures Total(past, asset, debit) == Total(current, asset, debit)
  {
    CurrentReports(db, ledger, current);
    ReportTotal(db, ledger, PostedNow, current, asset, debit);
    ReportTotal(db, ledger, PostedAsOf(at), past, asset, debit);
    LateSide(db.txs, ledger, asset, if debit then Debit else Credit, at);
  }

  lemma WellFormedTxs(db: Db)
    requires Inv(db)
    ensures forall i :: 0 <= i < |db.txs| ==> WellFormedPostings(db.txs[i].postings)
  {
    forall i | 0 <= i < |db.txs|
      ensures WellFormedPostings(db.txs[i].postings)
    {
      assert SoundTx(db.ledgers, db.accounts, db.txs[i]);
    }
  }

  // Historical sums never exceed the stored totals, so scanning them into
  // int64 cannot fail.
  lemma HistoricalFits(db: Db, ledger: Id, at: Time, rows: seq<TrialRow>, i: nat)
    requires Inv(db) && HistoricalRows(db, ledger, at, rows) && i < |rows|
    ensures 0 <= rows[i].debits <= MAX_INT64 && 0 <= rows[i].credits <= MAX_INT64
  {
    var k := rows[i].key;
    WellFormedTxs(db);
    SumGrows(db.txs, k, true, at);
    SumGrows(db.txs, k, false, at);
    PostedSum(db.txs, k, true);
    PostedSum(db.txs, k, false);
    assert RowAgrees(db.txs, db.holds, db.balances, k);
    assert RowFits(Row(db.balances, k));
  }

  lemma {:induction false} SumGrows(txs: seq<Transaction>, k: BalanceKey, debit: bool, at: Time)
    requires forall i :: 0 <= i < |txs| ==> WellFormedPostings(txs[i].postings)
    ensures 0 <= Sum(txs, k, debit, PostedAsOf(at)) <= Sum(txs, k, debit, PostedNow)
  {
    if txs != [] {
      SumGrows(txs[..|txs| - 1], k, debit, at);
      HitLegs(txs[|txs| - 1].postings, k);
    }
  }
}
