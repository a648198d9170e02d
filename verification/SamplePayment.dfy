// A concrete ledger built from nothing: two accounts and a payment of 5 EUR
// out of an empty bank account. Used to show that situations described
// elsewhere are reachable.
module SamplePayments {
  import opened Wrappers
  import opened Money
  import opened Domain
  import opened LedgerTables
  import opened LedgerSteps

  const FIVE := Amount("EUR", 5)
  const ENTRIES := [Posting(11, 2, Debit, FIVE), Posting(12, 3, Credit, FIVE)]
  const PAYMENT := CreateRequest(10, 1, "payment", "", "", Some(Posted), None, None, ENTRIES, 0)
  const SETUP := [
    NewLedger(1, "main"),
    NewAccount(2, Account(1, "supplies", NormalDebit)),
    NewAccount(3, Account(1, "bank", NormalDebit)),
    Create(PAYMENT)]

  const BEFORE_PAYMENT := Db(
    map[1 := "main"],
    map[2 := Account(1, "supplies", NormalDebit), 3 := Account(1, "bank", NormalDebit)],
    [], map[], [], map[], [])

  lemma SetupRuns()
    ensures Run(EMPTY_DB, SETUP[..3]) == BEFORE_PAYMENT
    ensures Run(EMPTY_DB, SETUP) == ServiceCreate(BEFORE_PAYMENT, PAYMENT).0
  {
    var one := EMPTY_DB.(ledgers := map[1 := "main"]);
    var two := one.(accounts := map[2 := Account(1, "supplies", NormalDebit)]);
    assert Step(EMPTY_DB, SETUP[0]) == one;
    assert Step(one, SETUP[1]) == two;
    assert Step(two, SETUP[2]) == BEFORE_PAYMENT;
    RunSnoc(EMPTY_DB, SETUP, 1);
    RunSnoc(EMPTY_DB, SETUP, 2);
    RunSnoc(EMPTY_DB, SETUP, 3);
    RunSnoc(EMPTY_DB, SETUP, 4);
    assert SETUP[..4] == SETUP;
  }

  lemma RunSnoc(db: Db, cs: seq<Command>, n: nat)
    requires 0 < n <= |cs|
    ensures n == 1 ==> Run(db, cs[..1]) == Step(db, cs[0])
    ensures Run(db, cs[..n]) == Step(Run(db, cs[..n - 1]), cs[n - 1])
  {
    assert cs[..n][..n - 1] == cs[..n - 1];
  }

  lemma TwoSides(p: Posting, q: Posting, d: Direction, asset: string)
    ensures SideSum([p, q], d, asset)
         == (if p.direction == d && p.amount.asset == asset then p.amount.units else 0)
            + (if q.direction == d && q.amount.asset == asset then q.amount.units else 0)
  {
    assert [p, q][..1] == [p];
    assert [p][..0] == [];
    assert SideSum([p], d, asset) == SideSum([], d, asset)
           + if p.direction == d && p.amount.asset == asset then p.amount.units else 0;
  }

  lemma EntriesBalanced()
    ensures Balanced(ENTRIES)
  {
    forall asset, d | d == Debit || d == Credit
      ensures SideSum(ENTRIES, d, asset) == if asset == "EUR" then 5 else 0
    {
      TwoSides(ENTRIES[0], ENTRIES[1], d, asset);
    }
  }

  lemma TwoLegs(p: Posting, q: Posting, k: BalanceKey, debit: bool)
    ensures LegSum([p, q], k, debit) == Leg(p, k, debit) + Leg(q, k, debit)
    ensures Hits([p, q], k) <= 2
  {
    LegSumSnoc([], p, k, debit);
    LegSumSnoc([p], q, k, debit);
    assert [] + [p] == [p] && [p] + [q] == [p, q];
  }

  // Two small postings cannot overflow a table of small rows.
  lemma SmallTable(b: map<BalanceKey, Balance>, p: Posting, q: Posting, c: Column)
    requires 0 <= p.amount.units <= 5 && 0 <= q.amount.units <= 5
    requires forall k :: k in b ==>
               && 0 <= b[k].postedDebits <= 10 && 0 <= b[k].postedCredits <= 10 && b[k].pendingDebits == 0
               && b[k].pendingCredits == 0 && b[k].held == 0 && 0 <= b[k].version <= 10
    ensures TableFits(Applied(b, [p, q], c))
    ensures c == PostedColumn ==>
              forall k :: k in Applied(b, [p, q], c) ==>
                var r, r' := Row(b, k), Applied(b, [p, q], c)[k];
                && 0 <= r'.postedDebits <= r.postedDebits + 10 && 0 <= r'.postedCredits <= r.postedCredits + 10
                && r'.pendingDebits == 0 && r'.pendingCredits == 0 && r'.held == 0 && 0 <= r'.version <= r.version + 2
  {
    forall k: BalanceKey, debit: bool
      ensures 0 <= LegSum([p, q], k, debit) <= 10 && Hits([p, q], k) <= 2
    {
      TwoLegs(p, q, k, debit);
    }
  }

  lemma PaymentFits()
    ensures CreateFault(BEFORE_PAYMENT, BuildTransaction(PAYMENT)).None?
    ensures CreateInsert(BEFORE_PAYMENT, BuildTransaction(PAYMENT)).Committed?
  {
    assert ENTRIES[..1] == [ENTRIES[0]];
    assert AccountsFault(BEFORE_PAYMENT.accounts, 1, ENTRIES[..1]).None?;
    SmallTable(map[], ENTRIES[0], ENTRIES[1], PostedColumn);
    assert ENTRIES == [ENTRIES[0], ENTRIES[1]];
  }

  lemma PaymentCommits()
    ensures var db := Run(EMPTY_DB, SETUP);
            && db.txs == [BuildTransaction(PAYMENT)]
            && db.keys.Keys == {"payment"}
            && db.accounts == BEFORE_PAYMENT.accounts
            && db.balances == Applied(map[], ENTRIES, PostedColumn)
  {
    SetupRuns();
    EntriesBalanced();
    PaymentFits();
  }
}
