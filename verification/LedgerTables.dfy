// The tables of one tenant's ledger schema and the sums that tie the derived
// balance table to the postings behind it
// (services/ledger-core/internal/adapters/postgres/store.go).
module LedgerTables {
  import opened Int64
  import opened Wrappers
  import opened Decimal
  import opened Money
  import opened Domain
  import opened Fingerprints

  datatype BalanceKey = BalanceKey(account: Id, asset: string)

  datatype Account = Account(ledger: Id, path: string, normal: NormalBalance)

  // A row of idempotency_keys: the response snapshot and the request hash.
  datatype Stored = Stored(response: Transaction, hash: Fingerprint)

  datatype HoldRow = HoldRow(hold: Hold, hash: Fingerprint)

  // ---- Events (internal/app/events.go) -----------------------------------------

  datatype EventMoney = EventMoney(asset: string, amount: string)

  datatype EventPosting = EventPosting(account: Id, direction: string, amount: EventMoney)

  datatype Event =
    | TransactionPosted(
        transaction: Id,
        ledger: Id,
        key: string,
        description: string,
        postings: seq<EventPosting>,
        metadata: Option<Metadata>,
        postedAt: Time)
    | TransactionReversed(original: Id, reversal: Id, ledger: Id, reason: string, reversedAt: Time)
    | HoldCreated(hold: Id, ledger: Id, account: Id, key: string, amount: EventMoney, expiresAt: Time, createdAt: Time)
    | HoldCaptured(
        hold: Id,
        ledger: Id,
        account: Id,
        captured: EventMoney,
        released: Option<EventMoney>,
        transactionId: Option<Id>,
        capturedAt: Time)
    | HoldReleased(hold: Id, ledger: Id, account: Id, amount: EventMoney, releasedAt: Time)

  function NewEventMoney(a: Amount): EventMoney {
    EventMoney(a.asset, IntText(a.units))
  }

  function NewEventPosting(p: Posting): EventPosting {
    EventPosting(p.account, DirectionText(p.direction), NewEventMoney(p.amount))
  }

  function NewTransactionPosted(t: Transaction, postedAt: Time): Event {
    TransactionPosted(
      t.id, t.ledger, t.key, t.description,
      seq(|t.postings|, i requires 0 <= i < |t.postings| => NewEventPosting(t.postings[i])),
      t.metadata, postedAt)
  }

  // ---- Tables ------------------------------------------------------------------

  datatype Db = Db(
    ledgers: map<Id, string>,
    accounts: map<Id, Account>,
    txs: seq<Transaction>,
    balances: map<BalanceKey, Balance>,
    holds: seq<HoldRow>,
    keys: map<string, Stored>,
    outbox: seq<Event>)

  const EMPTY_DB := Db(map[], map[], [], map[], [], map[], [])

  const ZERO_BALANCE := Balance(0, 0, 0, 0, 0, 0)

  function KeyOf(p: Posting): BalanceKey {
    BalanceKey(p.account, p.amount.asset)
  }

  function HoldKey(h: Hold): BalanceKey {
    BalanceKey(h.account, h.amount.asset)
  }

  // A missing balance row reads as zero.
  function Row(b: map<BalanceKey, Balance>, k: BalanceKey): Balance {
    if k in b then b[k] else ZERO_BALANCE
  }

  predicate RowFits(r: Balance) {
    Fits(r.postedDebits) && Fits(r.postedCredits) && Fits(r.pendingDebits) && Fits(r.pendingCredits)
    && Fits(r.held) && Fits(r.version)
  }

  predicate TableFits(b: map<BalanceKey, Balance>) {
    forall k :: k in b ==> RowFits(b[k])
  }

  // ---- Sums over the source of truth -------------------------------------------

  // debitCredit: anything that is not a debit counts as a credit.
  function Leg(p: Posting, k: BalanceKey, debit: bool): int {
    if KeyOf(p) == k && (p.direction == Debit) == debit then p.amount.units else 0
  }

  function LegSum(ps: seq<Posting>, k: BalanceKey, debit: bool): int {
    if ps == [] then 0 else LegSum(ps[..|ps| - 1], k, debit) + Leg(ps[|ps| - 1], k, debit)
  }

  // Number of postings that touch row k.
  function Hits(ps: seq<Posting>, k: BalanceKey): nat {
    if ps == [] then 0 else Hits(ps[..|ps| - 1], k) + if KeyOf(ps[|ps| - 1]) == k then 1 else 0
  }

  function Keys(ps: seq<Posting>): set<BalanceKey> {
    set p | p in ps :: KeyOf(p)
  }

  // A firm transaction was posted, and possibly reversed later.
  predicate Firm(s: TransactionStatus) {
    s != Draft
  }

  function TxSum(txs: seq<Transaction>, k: BalanceKey, debit: bool, firm: bool): int {
    if txs == [] then 0
    else
      var t := txs[|txs| - 1];
      TxSum(txs[..|txs| - 1], k, debit, firm)
      + if Firm(t.status) == firm then LegSum(t.postings, k, debit) else 0
  }

  function Reserved(h: Hold, k: BalanceKey): int {
    if h.status == Active && HoldKey(h) == k then h.amount.units else 0
  }

  function HeldSum(holds: seq<HoldRow>, k: BalanceKey): int {
    if holds == [] then 0
    else HeldSum(holds[..|holds| - 1], k) + Reserved(holds[|holds| - 1].hold, k)
  }

  lemma LegSumSnoc(ps: seq<Posting>, p: Posting, k: BalanceKey, debit: bool)
    ensures LegSum(ps + [p], k, debit) == LegSum(ps, k, debit) + Leg(p, k, debit)
    ensures Hits(ps + [p], k) == Hits(ps, k) + if KeyOf(p) == k then 1 else 0
  {
    assert (ps + [p])[..|ps|] == ps;
  }

  lemma TxSumSnoc(txs: seq<Transaction>, t: Transaction, k: BalanceKey, debit: bool, firm: bool)
    ensures TxSum(txs + [t], k, debit, firm)
         == TxSum(txs, k, debit, firm) + if Firm(t.status) == firm then LegSum(t.postings, k, debit) else 0
  {
    assert (txs + [t])[..|txs|] == txs;
  }

  lemma {:induction false} TxSumUpdate(txs: seq<Transaction>, i: nat, t: Transaction, k: BalanceKey, debit: bool, firm: bool)
    requires i < |txs|
    ensures TxSum(txs[i := t], k, debit, firm)
         == TxSum(txs, k, debit, firm)
            - (if Firm(txs[i].status) == firm then LegSum(txs[i].postings, k, debit) else 0)
            + (if Firm(t.status) == firm then LegSum(t.postings, k, debit) else 0)
  {
    var last := |txs| - 1;
    if i == last {
      assert txs[i := t][..last] == txs[..last];
    } else {
      TxSumUpdate(txs[..last], i, t, k, debit, firm);
      assert txs[i := t][..last] == txs[..last][i := t];
    }
  }

  lemma HeldSumSnoc(holds: seq<HoldRow>, h: HoldRow, k: BalanceKey)
    ensures HeldSum(holds + [h], k) == HeldSum(holds, k) + Reserved(h.hold, k)
  {
    assert (holds + [h])[..|holds|] == holds;
  }

  lemma {:induction false} HeldSumUpdate(holds: seq<HoldRow>, i: nat, h: HoldRow, k: BalanceKey)
    requires i < |holds|
    ensures HeldSum(holds[i := h], k)
         == HeldSum(holds, k) - Reserved(holds[i].hold, k) + Reserved(h.hold, k)
  {
    var last := |holds| - 1;
    if i == last {
      assert holds[i := h][..last] == holds[..last];
    } else {
      HeldSumUpdate(holds[..last], i, h, k);
      assert holds[i := h][..last] == holds[..last][i := h];
    }
  }

  // ---- Balance updates, in closed form -----------------------------------------

  datatype Column = PostedColumn | PendingColumn

  function Bump(r: Balance, c: Column, debit: int, credit: int, hits: int): Balance {
    match c
    case PostedColumn =>
      r.(postedDebits := r.postedDebits + debit, postedCredits := r.postedCredits + credit,
         version := r.version + hits)
    case PendingColumn =>
      r.(pendingDebits := r.pendingDebits + debit, pendingCredits := r.pendingCredits + credit,
         version := r.version + hits)
  }

  function Promote(r: Balance, debit: int, credit: int, hits: int): Balance {
    Balance(r.postedDebits + debit, r.postedCredits + credit,
            r.pendingDebits - debit, r.pendingCredits - credit, r.held, r.version + hits)
  }

  function Applied(b: map<BalanceKey, Balance>, ps: seq<Posting>, c: Column): map<BalanceKey, Balance> {
    map k | k in b.Keys + Keys(ps) :: Bump(Row(b, k), c, LegSum(ps, k, true), LegSum(ps, k, false), Hits(ps, k))
  }

  // UPDATE ... WHERE: rows that do not exist are silently left alone.
  function Promoted(b: map<BalanceKey, Balance>, ps: seq<Posting>): map<BalanceKey, Balance> {
    map k | k in b :: Promote(b[k], LegSum(ps, k, true), LegSum(ps, k, false), Hits(ps, k))
  }

  function Reserve(b: map<BalanceKey, Balance>, k: BalanceKey, units: int): map<BalanceKey, Balance> {
    var r := Row(b, k);
    b[k := r.(held := r.held + units, version := r.version + 1)]
  }

  lemma {:induction false} Untouched(ps: seq<Posting>, k: BalanceKey, debit: bool)
    requires k !in Keys(ps)
    ensures LegSum(ps, k, debit) == 0 && Hits(ps, k) == 0
  {
    if ps != [] {
      var init := ps[..|ps| - 1];
      assert forall p :: p in init ==> p in ps;
      assert ps[|ps| - 1] in ps;
      Untouched(init, k, debit);
    }
  }

  // Every row, present or not, moves by exactly the postings that touch it.
  lemma AppliedRow(b: map<BalanceKey, Balance>, ps: seq<Posting>, c: Column, k: BalanceKey)
    ensures Row(Applied(b, ps, c), k)
         == Bump(Row(b, k), c, LegSum(ps, k, true), LegSum(ps, k, false), Hits(ps, k))
  {
    if k !in b.Keys + Keys(ps) {
      Untouched(ps, k, true);
      Untouched(ps, k, false);
    }
  }

  ghost predicate NonNegative(ps: seq<Posting>) {
    forall p :: p in ps ==> p.amount.units >= 0
  }

  // ---- The statements as the code runs them, posting by posting ------------------

  lemma AppliedSnocAt(b: map<BalanceKey, Balance>, ps: seq<Posting>, p: Posting, c: Column, k: BalanceKey)
    ensures var before, after := Row(Applied(b, ps, c), k), Row(Applied(b, ps + [p], c), k);
            after == if k == KeyOf(p) then Bump(before, c, Leg(p, k, true), Leg(p, k, false), 1) else before
  {
    AppliedRow(b, ps, c, k);
    AppliedRow(b, ps + [p], c, k);
    LegSumSnoc(ps, p, k, true);
    LegSumSnoc(ps, p, k, false);
  }

  lemma KeysSnoc(ps: seq<Posting>, p: Posting)
    ensures Keys(ps + [p]) == Keys(ps) + {KeyOf(p)}
  {
    assert forall q :: q in ps + [p] <==> q in ps || q == p;
  }

  lemma AppliedSnoc(b: map<BalanceKey, Balance>, ps: seq<Posting>, p: Posting, c: Column, row: Balance)
    requires var k := KeyOf(p);
             row == Bump(Row(Applied(b, ps, c), k), c, Leg(p, k, true), Leg(p, k, false), 1)
    ensures Applied(b, ps + [p], c) == Applied(b, ps, c)[KeyOf(p) := row]
  {
    var before, after := Applied(b, ps, c), Applied(b, ps + [p], c);
    KeysSnoc(ps, p);
    assert after.Keys == before[KeyOf(p) := row].Keys;
    forall k | k in after
      ensures after[k] == before[KeyOf(p) := row][k]
    {
      AppliedSnocAt(b, ps, p, c, k);
    }
  }

  lemma PromotedSnoc(b: map<BalanceKey, Balance>, ps: seq<Posting>, p: Posting)
    ensures var before := Promoted(b, ps);
            var k := KeyOf(p);
            Promoted(b, ps + [p])
            == if k in before
               then before[k := Promote(before[k], Leg(p, k, true), Leg(p, k, false), 1)]
               else before
  {
    forall k
      ensures LegSum(ps + [p], k, true) == LegSum(ps, k, true) + Leg(p, k, true)
      ensures LegSum(ps + [p], k, false) == LegSum(ps, k, false) + Leg(p, k, false)
      ensures Hits(ps + [p], k) == Hits(ps, k) + if KeyOf(p) == k then 1 else 0
    {
      LegSumSnoc(ps, p, k, true);
      LegSumSnoc(ps, p, k, false);
    }
  }

  lemma {:induction false} LegSumPrefix(ps: seq<Posting>, i: nat, k: BalanceKey, debit: bool)
    requires i <= |ps| && NonNegative(ps)
    ensures 0 <= LegSum(ps[..i], k, debit) <= LegSum(ps, k, debit)
    ensures Hits(ps[..i], k) <= Hits(ps, k)
    decreases |ps|
  {
    if ps == [] {
    } else {
      var last := |ps| - 1;
      var init := ps[..last];
      assert ps[last] in ps;
      assert forall p :: p in init ==> p in ps;
      if i == |ps| {
        assert ps[..i] == ps;
        LegSumPrefix(init, 0, k, debit);
      } else {
        assert init[..i] == ps[..i];
        LegSumPrefix(init, i, k, debit);
      }
    }
  }

  // If the final rows fit, so did every intermediate row: amounts only
  // accumulate. Hence one overflow test at the end decides the whole batch.
  lemma AppliedPrefixFits(b: map<BalanceKey, Balance>, ps: seq<Posting>, c: Column, i: nat)
    requires i <= |ps| && NonNegative(ps) && TableFits(b)
    ensures TableFits(Applied(b, ps, c)) ==> TableFits(Applied(b, ps[..i], c))
  {
    if TableFits(Applied(b, ps, c)) {
      assert forall p :: p in ps[..i] ==> p in ps;
      forall k | k in Applied(b, ps[..i], c)
        ensures RowFits(Applied(b, ps[..i], c)[k])
      {
        assert k in Applied(b, ps, c);
        BumpPrefixFits(Row(b, k), ps, c, i, k);
      }
    }
  }

  lemma BumpPrefixFits(r: Balance, ps: seq<Posting>, c: Column, i: nat, k: BalanceKey)
    requires i <= |ps| && NonNegative(ps) && RowFits(r)
    requires RowFits(Bump(r, c, LegSum(ps, k, true), LegSum(ps, k, false), Hits(ps, k)))
    ensures RowFits(Bump(r, c, LegSum(ps[..i], k, true), LegSum(ps[..i], k, false), Hits(ps[..i], k)))
  {
    LegSumPrefix(ps, i, k, true);
    LegSumPrefix(ps, i, k, false);
  }

  lemma PromotedPrefixFits(b: map<BalanceKey, Balance>, ps: seq<Posting>, i: nat)
    requires i <= |ps| && NonNegative(ps) && TableFits(b)
    ensures TableFits(Promoted(b, ps)) ==> TableFits(Promoted(b, ps[..i]))
  {
    if TableFits(Promoted(b, ps)) {
      forall k | k in b
        ensures RowFits(Promoted(b, ps[..i])[k])
      {
        LegSumPrefix(ps, i, k, true);
        LegSumPrefix(ps, i, k, false);
        assert RowFits(Promoted(b, ps)[k]);
      }
    }
  }

  // applyBalances: one upsert per posting; a BIGINT overflow in any of them
  // aborts the whole database transaction.
  method ApplyBalances(b: map<BalanceKey, Balance>, ps: seq<Posting>, c: Column)
    returns (r: Option<map<BalanceKey, Balance>>)
    requires NonNegative(ps) && TableFits(b)
    ensures r == if TableFits(Applied(b, ps, c)) then Some(Applied(b, ps, c)) else None
  {
    var table := b;
    assert Applied(b, ps[..0], c) == b by {
      assert Keys(ps[..0]) == {};
    }
    for i := 0 to |ps|
      invariant table == Applied(b, ps[..i], c) && TableFits(table)
    {
      table := Upsert(table, b, ps, c, i);
      assert ps[..i + 1] == ps[..i] + [ps[i]];
      if !RowFits(table[KeyOf(ps[i])]) {
        AppliedPrefixFits(b, ps, c, i + 1);
        return None;
      }
    }
    assert ps[..|ps|] == ps;
    return Some(table);
  }

  // INSERT ... ON CONFLICT DO UPDATE for one posting.
  method Upsert(table: map<BalanceKey, Balance>, ghost b: map<BalanceKey, Balance>, ps: seq<Posting>, c: Column, i: nat)
    returns (after: map<BalanceKey, Balance>)
    requires i < |ps| && table == Applied(b, ps[..i], c)
    ensures after == Applied(b, ps[..i] + [ps[i]], c)
    ensures after == table[KeyOf(ps[i]) := Row(after, KeyOf(ps[i]))]
  {
    var p := ps[i];
    var k := KeyOf(p);
    var debit := if p.direction == Debit then p.amount.units else 0;
    var credit := if p.direction == Debit then 0 else p.amount.units;
    var row := Bump(Row(table, k), c, debit, credit, 1);
    AppliedSnoc(b, ps[..i], p, c, row);
    after := table[k := row];
  }

  // promoteBalances: one update per posting, matching existing rows only.
  method PromoteBalances(b: map<BalanceKey, Balance>, ps: seq<Posting>)
    returns (r: Option<map<BalanceKey, Balance>>)
    requires NonNegative(ps) && TableFits(b)
    ensures r == if TableFits(Promoted(b, ps)) then Some(Promoted(b, ps)) else None
  {
    var table := b;
    assert Promoted(b, ps[..0]) == b;
    for i := 0 to |ps|
      invariant table == Promoted(b, ps[..i]) && TableFits(table)
    {
      var p := ps[i];
      var k := KeyOf(p);
      PromotedSnoc(b, ps[..i], p);
      assert ps[..i + 1] == ps[..i] + [p];
      if k in table {
        var debit := if p.direction == Debit then p.amount.units else 0;
        var credit := if p.direction == Debit then 0 else p.amount.units;
        var row := Promote(table[k], debit, credit, 1);
        table := table[k := row];
        if !RowFits(row) {
          PromotedPrefixFits(b, ps, i + 1);
          return None;
        }
      }
    }
    assert ps[..|ps|] == ps;
    return Some(table);
  }
}
