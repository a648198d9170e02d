// Account statements (services/ledger-core/internal/adapters/postgres/
// store.go:1332-1447): opening, closing and running balances, paged.
module Statements {
  import opened Int64
  import opened Wrappers
  import opened Money
  import opened Domain
  import opened Fingerprints
  import opened LedgerTables
  import opened LedgerSteps
  import opened LedgerInvariant
  import LedgerRuns
  import opened Keysets

  // One posting of the account with its transaction context.
  datatype Entry = Entry(
    key: Key,
    transaction: Id,
    reference: string,
    direction: Direction,
    asset: string,
    amount: int)

  function Debited(e: Entry): int {
    if e.direction == Debit then e.amount else -e.amount
  }

  function EntryOf(t: Transaction, p: Posting): Entry {
    Entry(Key(t.effectiveAt, p.id), t.id, t.reference, p.direction, p.amount.asset, p.amount.units)
  }

  function TxEntries(t: Transaction, ps: seq<Posting>, account: Id): seq<Entry> {
    if ps == [] then []
    else
      var p := ps[|ps| - 1];
      TxEntries(t, ps[..|ps| - 1], account) + if p.account == account then [EntryOf(t, p)] else []
  }

  // All postings of posted or reversed transactions on the account.
  function Entries(txs: seq<Transaction>, account: Id): seq<Entry> {
    if txs == [] then []
    else
      var t := txs[|txs| - 1];
      Entries(txs[..|txs| - 1], account) + if Firm(t.status) then TxEntries(t, t.postings, account) else []
  }

  // ---- Sums ----------------------------------------------------------------------

  // SUM(CASE WHEN direction = 'DEBIT' THEN amount ELSE -amount END) over the
  // entries of an asset that pass a filter.
  function Raw(es: seq<Entry>, asset: string, f: Entry -> bool): int {
    if es == [] then 0
    else
      var e := es[|es| - 1];
      Raw(es[..|es| - 1], asset, f) + if e.asset == asset && f(e) then Debited(e) else 0
  }

  function Side(es: seq<Entry>, asset: string, debit: bool): int {
    if es == [] then 0
    else
      var e := es[|es| - 1];
      Side(es[..|es| - 1], asset, debit) + if e.asset == asset && (e.direction == Debit) == debit then e.amount else 0
  }

  ghost predicate AmountsPositive(es: seq<Entry>) {
    forall i :: 0 <= i < |es| ==> es[i].amount > 0
  }

  // Sums over disjoint filters add up.
  lemma {:induction false} RawSplit(es: seq<Entry>, asset: string, f: Entry -> bool, g: Entry -> bool, h: Entry -> bool)
    requires forall i :: 0 <= i < |es| ==> !(f(es[i]) && g(es[i])) && (h(es[i]) <==> f(es[i]) || g(es[i]))
    ensures Raw(es, asset, h) == Raw(es, asset, f) + Raw(es, asset, g)
  {
    if es != [] {
      RawSplit(es[..|es| - 1], asset, f, g, h);
    }
  }

  // Whatever is filtered, the sum stays between all credits and all debits.
  lemma {:induction false} RawBounds(es: seq<Entry>, asset: string, f: Entry -> bool)
    requires AmountsPositive(es)
    ensures -Side(es, asset, false) <= Raw(es, asset, f) <= Side(es, asset, true)
  {
    if es != [] {
      RawBounds(es[..|es| - 1], asset, f);
    }
  }

  // ---- The specification --------------------------------------------------------------

  function BeforePeriod(from: Time): Entry -> bool {
    (e: Entry) => e.key.at < from
  }

  function InPeriod(from: Time, to: Time): Entry -> bool {
    (e: Entry) => from <= e.key.at <= to
  }

  // The window frame of entry k: the period's rows up to and including it.
  function WindowTo(from: Time, to: Time, k: Key): Entry -> bool {
    (e: Entry) => from <= e.key.at <= to && (e.key == k || Earlier(e.key, k))
  }

  function UpTo(k: Key): Entry -> bool {
    (e: Entry) => e.key == k || Earlier(e.key, k)
  }

  function UpToTime(to: Time): Entry -> bool {
    (e: Entry) => e.key.at <= to
  }

  datatype Line = Line(entry: Entry, running: int)

  datatype AssetBalance = AssetBalance(asset: string, units: int)

  datatype Statement = Statement(opening: seq<AssetBalance>, closing: seq<AssetBalance>, lines: seq<Line>)

  // ---- Query results ------------------------------------------------------------------------

  // statementRawSums: one row per asset that passes the filter.
  ghost predicate SumsOf(sums: map<string, int>, es: seq<Entry>, f: Entry -> bool) {
    && (forall asset :: asset in sums <==> exists i :: 0 <= i < |es| && es[i].asset == asset && f(es[i]))
    && (forall asset :: asset in sums ==> sums[asset] == Raw(es, asset, f))
  }

  datatype WindowRow = WindowRow(entry: Entry, cumulative: int)

  function PeriodKeys(es: seq<Entry>, from: Time, to: Time): set<Key> {
    set i | 0 <= i < |es| && from <= es[i].key.at <= to :: es[i].key
  }

  // The rows of the window query: the page's entries in order, each with
  // its cumulative sum over the whole period.
  ghost predicate WindowRows(rows: seq<WindowRow>, es: seq<Entry>, from: Time, to: Time, cursor: Key, limit: nat)
    requires 1 <= limit <= MAX_LIMIT
  {
    var keys := Fetch(PeriodKeys(es, from, to), Position(cursor), false, NormalizeLimit(FetchLimit(limit)));
    && |rows| == |keys|
    && forall n :: 0 <= n < |rows| ==>
         && rows[n].entry in es && rows[n].entry.key == keys[n]
         && rows[n].cumulative == Raw(es, rows[n].entry.asset, WindowTo(from, to, keys[n]))
  }

  // ---- Assembling the answer -------------------------------------------------------------------

  function Look(sums: map<string, int>, asset: string): int {
    if asset in sums then sums[asset] else 0
  }

  predicate Ascending(names: seq<string>) {
    forall i, j :: 0 <= i < j < |names| ==> TextLess(names[i], names[j])
  }

  method InsertName(names: seq<string>, name: string) returns (r: seq<string>)
    requires Ascending(names) && name !in names
    ensures Ascending(r) && forall x :: x in r <==> x in names || x == name
  {
    var i := |names|;
    while i > 0 && !TextLess(names[i - 1], name)
      invariant 0 <= i <= |names|
      invariant i < |names| ==> TextLess(name, names[i])
    {
      TextTrichotomy(names[i - 1], name);
      assert names[i - 1] in names;
      i := i - 1;
    }
    r := names[..i] + [name] + names[i..];
    Placed(names, i, name);
  }

  lemma Placed(names: seq<string>, i: nat, name: string)
    requires Ascending(names) && i <= |names|
    requires i > 0 ==> TextLess(names[i - 1], name)
    requires i < |names| ==> TextLess(name, names[i])
    ensures Ascending(names[..i] + [name] + names[i..])
    ensures forall x :: x in names[..i] + [name] + names[i..] <==> x in names || x == name
  {
    assert names == names[..i] + names[i..];
    Below(names[..i], name);
    Above(names[i..], name);
    Joined(names[..i], name, names[i..]);
  }

  lemma Below(names: seq<string>, name: string)
    requires Ascending(names) && (names != [] ==> TextLess(names[|names| - 1], name))
    ensures forall j :: 0 <= j < |names| ==> TextLess(names[j], name)
  {
    forall j | 0 <= j < |names| - 1
      ensures TextLess(names[j], name)
    {
      TextTransitive(names[j], names[|names| - 1], name);
    }
  }

  lemma Above(names: seq<string>, name: string)
    requires Ascending(names) && (names != [] ==> TextLess(name, names[0]))
    ensures forall j :: 0 <= j < |names| ==> TextLess(name, names[j])
  {
    forall j | 0 < j < |names|
      ensures TextLess(name, names[j])
    {
      TextTransitive(name, names[0], names[j]);
    }
  }

  lemma Joined(a: seq<string>, name: string, b: seq<string>)
    requires Ascending(a + b)
    requires forall j :: 0 <= j < |a| ==> TextLess(a[j], name)
    requires forall j :: 0 <= j < |b| ==> TextLess(name, b[j])
    ensures Ascending(a + [name] + b)
    ensures forall x :: x in a + [name] + b <==> x in a + b || x == name
  {
    var r := a + [name] + b;
    forall i, j | 0 <= i < j < |r|
      ensures TextLess(r[i], r[j])
    {
      var m, n := if i < |a| then i else i - 1, if j < |a| then j else j - 1;
      if i != |a| && j != |a| {
        assert r[i] == (a + b)[m] && r[j] == (a + b)[n];
      }
    }
  }

  // sort.Strings over the assets of both maps.
  method SortedNames(assets: set<string>) returns (names: seq<string>)
    ensures Ascending(names) && forall x :: x in names <==> x in assets
  {
    names := [];
    var left := assets;
    while left != {}
      invariant left <= assets && Ascending(names)
      invariant forall x :: x in names <==> x in assets - left
      decreases |left|
    {
      var a :| a in left;
      names := InsertName(names, a);
      left := left - {a};
    }
  }

  // The two balance lists: one row per asset seen before or in the period.
  method BuildBalances(nb: NormalBalance, opening: map<string, int>, period: map<string, int>)
    returns (names: seq<string>, opens: seq<AssetBalance>, closes: seq<AssetBalance>)
    ensures Ascending(names) && forall asset :: asset in names <==> asset in opening.Keys + period.Keys
    ensures |opens| == |closes| == |names|
    ensures forall i :: 0 <= i < |names| ==>
              && opens[i] == AssetBalance(names[i], SignRaw(nb, Look(opening, names[i])))
              && closes[i] == AssetBalance(names[i], RunningBalance(nb, Look(opening, names[i]), Look(period, names[i])))
  {
    names := SortedNames(opening.Keys + period.Keys);
    opens, closes := [], [];
    for i := 0 to |names|
      invariant |opens| == |closes| == i
      invariant forall j :: 0 <= j < i ==>
                  && opens[j] == AssetBalance(names[j], SignRaw(nb, Look(opening, names[j])))
                  && closes[j] == AssetBalance(names[j], RunningBalance(nb, Look(opening, names[j]), Look(period, names[j])))
    {
      var a := names[i];
      opens := opens + [AssetBalance(a, SignRaw(nb, Look(opening, a)))];
      closes := closes + [AssetBalance(a, RunningBalance(nb, Look(opening, a), Look(period, a)))];
    }
  }

  function RowLine(nb: NormalBalance, opening: map<string, int>, r: WindowRow): Line {
    Line(r.entry, RunningBalance(nb, Look(opening, r.entry.asset), r.cumulative))
  }

  method BuildLines(nb: NormalBalance, opening: map<string, int>, rows: seq<WindowRow>) returns (lines: seq<Line>)
    ensures |lines| == |rows| && forall n :: 0 <= n < |rows| ==> lines[n] == RowLine(nb, opening, rows[n])
  {
    lines := [];
    for n := 0 to |rows|
      invariant |lines| == n && forall m :: 0 <= m < n ==> lines[m] == RowLine(nb, opening, rows[m])
    {
      var e := rows[n].entry;
      var openingRaw := if e.asset in opening then opening[e.asset] else 0;
      lines := lines + [Line(e, RunningBalance(nb, openingRaw, rows[n].cumulative))];
    }
  }

  // ---- What the answer means -----------------------------------------------------------------------

  ghost predicate DistinctKeys(es: seq<Entry>) {
    forall i, j :: 0 <= i < j < |es| ==> es[i].key.id != es[j].key.id
  }

  // What the ledger invariant says about the entries of one account.
  ghost predicate EntriesOk(es: seq<Entry>) {
    && AmountsPositive(es) && DistinctKeys(es)
    && forall asset :: Side(es, asset, true) <= MAX_INT64 && Side(es, asset, false) <= MAX_INT64
  }

  ghost function EntryAt(es: seq<Entry>, k: Key): Entry
    requires exists i :: 0 <= i < |es| && es[i].key == k
  {
    var i :| 0 <= i < |es| && es[i].key == k;
    es[i]
  }

  // The line of a posting: its running balance is the signed sum of every
  // posting of that asset up to and including it. No period, no page.
  ghost function TrueLine(nb: NormalBalance, es: seq<Entry>, k: Key): Line
    requires exists i :: 0 <= i < |es| && es[i].key == k
  {
    var e := EntryAt(es, k);
    Line(e, SignedBalance(nb, Raw(es, e.asset, UpTo(k))))
  }

  lemma EntryUnique(es: seq<Entry>, e: Entry)
    requires DistinctKeys(es) && e in es
    ensures (exists i :: 0 <= i < |es| && es[i].key == e.key) && EntryAt(es, e.key) == e
  {
    var i :| 0 <= i < |es| && es[i] == e;
  }

  lemma {:induction false} RawNothing(es: seq<Entry>, asset: string, f: Entry -> bool)
    requires forall i :: 0 <= i < |es| ==> !(es[i].asset == asset && f(es[i]))
    ensures Raw(es, asset, f) == 0
  {
    if es != [] {
      RawNothing(es[..|es| - 1], asset, f);
    }
  }

  // A missing row reads as the zero it is.
  lemma LookRaw(sums: map<string, int>, es: seq<Entry>, f: Entry -> bool, asset: string)
    requires SumsOf(sums, es, f)
    ensures Look(sums, asset) == Raw(es, asset, f)
  {
    if asset !in sums {
      RawNothing(es, asset, f);
    }
  }

  // No sum of the statement can leave int64, so nothing wraps and no scan
  // fails.
  lemma SignedExact(nb: NormalBalance, es: seq<Entry>, asset: string, f: Entry -> bool, g: Entry -> bool, h: Entry -> bool)
    requires EntriesOk(es)
    requires forall i :: 0 <= i < |es| ==> !(f(es[i]) && g(es[i])) && (h(es[i]) <==> f(es[i]) || g(es[i]))
    ensures Fits(Raw(es, asset, f)) && Fits(Raw(es, asset, g))
    ensures SignRaw(nb, Raw(es, asset, f)) == SignedBalance(nb, Raw(es, asset, f))
    ensures RunningBalance(nb, Raw(es, asset, f), Raw(es, asset, g)) == SignedBalance(nb, Raw(es, asset, h))
  {
    RawSplit(es, asset, f, g, h);
    RawBounds(es, asset, f);
    RawBounds(es, asset, g);
    RawBounds(es, asset, h);
  }

  lemma {:induction false} LineExact(nb: NormalBalance, es: seq<Entry>, opening: map<string, int>, r: WindowRow, from: Time, to: Time)
    requires EntriesOk(es) && SumsOf(opening, es, BeforePeriod(from))
    requires r.entry in es && from <= r.entry.key.at <= to
    requires r.cumulative == Raw(es, r.entry.asset, WindowTo(from, to, r.entry.key))
    ensures exists i :: 0 <= i < |es| && es[i].key == r.entry.key
    ensures RowLine(nb, opening, r) == TrueLine(nb, es, r.entry.key)
  {
    EntryUnique(es, r.entry);
    LookRaw(opening, es, BeforePeriod(from), r.entry.asset);
    SignedExact(nb, es, r.entry.asset, BeforePeriod(from), WindowTo(from, to, r.entry.key), UpTo(r.entry.key));
  }

  ghost function PageKeys(es: seq<Entry>, from: Time, to: Time, cursor: Key, limit: nat): seq<Key>
    requires 1 <= limit <= MAX_LIMIT
  {
    Fetch(PeriodKeys(es, from, to), Position(cursor), false, NormalizeLimit(FetchLimit(limit)))
  }

  lemma PageKeysExist(es: seq<Entry>, from: Time, to: Time, cursor: Key, limit: nat)
    requires 1 <= limit <= MAX_LIMIT
    ensures forall n :: 0 <= n < |PageKeys(es, from, to, cursor, limit)| ==>
              PageKeys(es, from, to, cursor, limit)[n] in PeriodKeys(es, from, to)
  {
    var rest := Beyond(PeriodKeys(es, from, to), Position(cursor), false);
    var rows := Listing(rest, false);
    ListingExact(rest, false);
    forall n | 0 <= n < |PageKeys(es, from, to, cursor, limit)|
      ensures PageKeys(es, from, to, cursor, limit)[n] in PeriodKeys(es, from, to)
    {
      assert rows[n] in rows;
    }
  }

  // The answer to one statement request. sums and rows are the results of its
  // three queries.
  method BuildStatement(nb: NormalBalance, ghost es: seq<Entry>, ghost from: Time, ghost to: Time, ghost cursor: Key,
                        ghost limit: nat, opening: map<string, int>, period: map<string, int>, rows: seq<WindowRow>)
    returns (out: Statement)
    requires EntriesOk(es) && from <= to && 1 <= limit <= MAX_LIMIT
    requires SumsOf(opening, es, BeforePeriod(from)) && SumsOf(period, es, InPeriod(from, to))
    requires WindowRows(rows, es, from, to, cursor, limit)
    // Every asset with a posting up to the end, its exact balance before the
    // period and at the end.
    ensures |out.opening| == |out.closing|
    ensures forall i, j :: 0 <= i < j < |out.opening| ==> TextLess(out.opening[i].asset, out.opening[j].asset)
    ensures forall i :: 0 <= i < |out.opening| ==>
              && out.opening[i].units == SignedBalance(nb, Raw(es, out.opening[i].asset, BeforePeriod(from)))
              && out.closing[i] == AssetBalance(out.opening[i].asset, SignedBalance(nb, Raw(es, out.opening[i].asset, UpToTime(to))))
    ensures forall n :: 0 <= n < |es| && es[n].key.at <= to ==>
              exists i :: 0 <= i < |out.opening| && out.opening[i].asset == es[n].asset
    // The lines do not depend on the period or the page.
    ensures |out.lines| == |PageKeys(es, from, to, cursor, limit)|
    ensures forall n :: 0 <= n < |out.lines| ==>
              && PageKeys(es, from, to, cursor, limit)[n] in PeriodKeys(es, from, to)
              && out.lines[n] == TrueLine(nb, es, PageKeys(es, from, to, cursor, limit)[n])
  {
    var names, opens, closes := BuildBalances(nb, opening, period);
    var lines := BuildLines(nb, opening, rows);
    out := Statement(opens, closes, lines);
    forall i | 0 <= i < |names|
      ensures opens[i].units == SignedBalance(nb, Raw(es, names[i], BeforePeriod(from)))
      ensures closes[i].units == SignedBalance(nb, Raw(es, names[i], UpToTime(to)))
    {
      BalanceExact(nb, es, from, to, opening, period, names[i]);
    }
    forall n | 0 <= n < |es| && es[n].key.at <= to
      ensures exists i :: 0 <= i < |opens| && opens[i].asset == es[n].asset
    {
      AssetListed(es, from, to, opening, period, n);
      var i :| 0 <= i < |names| && names[i] == es[n].asset;
      assert opens[i].asset == es[n].asset;
    }
    PageKeysExist(es, from, to, cursor, limit);
    forall n | 0 <= n < |rows|
      ensures lines[n] == TrueLine(nb, es, PageKeys(es, from, to, cursor, limit)[n])
    {
      LineExact(nb, es, opening, rows[n], from, to);
    }
  }

  lemma BalanceExact(nb: NormalBalance, es: seq<Entry>, from: Time, to: Time, opening: map<string, int>,
                     period: map<string, int>, asset: string)
    requires EntriesOk(es) && from <= to
    requires SumsOf(opening, es, BeforePeriod(from)) && SumsOf(period, es, InPeriod(from, to))
    ensures SignRaw(nb, Look(opening, asset)) == SignedBalance(nb, Raw(es, asset, BeforePeriod(from)))
    ensures RunningBalance(nb, Look(opening, asset), Look(period, asset)) == SignedBalance(nb, Raw(es, asset, UpToTime(to)))
  {
    LookRaw(opening, es, BeforePeriod(from), asset);
    LookRaw(period, es, InPeriod(from, to), asset);
    SignedExact(nb, es, asset, BeforePeriod(from), InPeriod(from, to), UpToTime(to));
  }

  lemma AssetListed(es: seq<Entry>, from: Time, to: Time, opening: map<string, int>, period: map<string, int>, n: nat)
    requires SumsOf(opening, es, BeforePeriod(from)) && SumsOf(period, es, InPeriod(from, to))
    requires n < |es| && es[n].key.at <= to
    ensures es[n].asset in opening.Keys + period.Keys
  {
    assert BeforePeriod(from)(es[n]) || InPeriod(from, to)(es[n]);
  }

  // Closing is opening plus the period's total.
  lemma ClosingAdds(nb: NormalBalance, es: seq<Entry>, from: Time, to: Time, asset: string)
    requires from <= to
    ensures SignedBalance(nb, Raw(es, asset, UpToTime(to)))
         == SignedBalance(nb, Raw(es, asset, BeforePeriod(from))) + SignedBalance(nb, Raw(es, asset, InPeriod(from, to)))
  {
    RawSplit(es, asset, BeforePeriod(from), InPeriod(from, to), UpToTime(to));
  }

  // ---- The entries of a reachable ledger --------------------------------------------------------------

  lemma {:induction false} TxEntriesExact(t: Transaction, ps: seq<Posting>, account: Id)
    ensures forall e :: e in TxEntries(t, ps, account) <==> exists p :: p in ps && p.account == account && e == EntryOf(t, p)
  {
    if ps != [] {
      TxEntriesExact(t, ps[..|ps| - 1], account);
      assert ps == ps[..|ps| - 1] + [ps[|ps| - 1]];
    }
  }

  // Exactly the account's postings of posted or reversed transactions, dated
  // by the time their transaction takes effect.
  ghost predicate Carries(t: Transaction, account: Id, e: Entry) {
    t.status != Draft && exists p :: p in t.postings && p.account == account && Tells(e, t, p)
  }

  predicate Tells(e: Entry, t: Transaction, p: Posting) {
    && e.key.at == t.effectiveAt && e.key.id == p.id && e.transaction == t.id && e.reference == t.reference
    && e.direction == p.direction && e.asset == p.amount.asset && e.amount == p.amount.units
  }

  lemma {:induction false} EntriesExact(txs: seq<Transaction>, account: Id)
    ensures forall e :: e in Entries(txs, account) <==> exists i :: 0 <= i < |txs| && Carries(txs[i], account, e)
  {
    if txs != [] {
      var init, t := txs[..|txs| - 1], txs[|txs| - 1];
      EntriesExact(init, account);
      TxEntriesExact(t, t.postings, account);
      forall e | e in Entries(txs, account)
        ensures exists i :: 0 <= i < |txs| && Carries(txs[i], account, e)
      {
        if e in Entries(init, account) {
          var i :| 0 <= i < |init| && Carries(init[i], account, e);
          assert Carries(txs[i], account, e);
        } else {
          assert Carries(txs[|txs| - 1], account, e);
        }
      }
      forall i, e | 0 <= i < |txs| && Carries(txs[i], account, e)
        ensures e in Entries(txs, account)
      {
        if i < |init| {
          assert Carries(init[i], account, e);
        }
      }
    }
  }

  lemma {:induction false} SideAppend(a: seq<Entry>, b: seq<Entry>, asset: string, debit: bool)
    ensures Side(a + b, asset, debit) == Side(a, asset, debit) + Side(b, asset, debit)
  {
    if b == [] {
      assert a + b == a;
    } else {
      SideAppend(a, b[..|b| - 1], asset, debit);
      assert (a + b)[..|a + b| - 1] == a + b[..|b| - 1];
    }
  }

  lemma {:induction false} TxSide(t: Transaction, ps: seq<Posting>, account: Id, asset: string, debit: bool)
    ensures Side(TxEntries(t, ps, account), asset, debit) == LegSum(ps, BalanceKey(account, asset), debit)
  {
    if ps != [] {
      var init, p := ps[..|ps| - 1], ps[|ps| - 1];
      TxSide(t, init, account, asset, debit);
      if p.account == account {
        SideAppend(TxEntries(t, init, account), [EntryOf(t, p)], asset, debit);
        assert Side([EntryOf(t, p)], asset, debit) == Leg(p, BalanceKey(account, asset), debit) by {
          assert [EntryOf(t, p)][..0] == [];
        }
      } else {
        assert TxEntries(t, init, account) + [] == TxEntries(t, init, account);
      }
    }
  }

  // The statement and the balance table add up the same postings.
  lemma {:induction false} SideTotal(txs: seq<Transaction>, account: Id, asset: string, debit: bool)
    ensures Side(Entries(txs, account), asset, debit) == TxSum(txs, BalanceKey(account, asset), debit, true)
  {
    if txs != [] {
      var init, t := txs[..|txs| - 1], txs[|txs| - 1];
      SideTotal(init, account, asset, debit);
      if Firm(t.status) {
        TxSide(t, t.postings, account, asset, debit);
        SideAppend(Entries(init, account), TxEntries(t, t.postings, account), asset, debit);
      } else {
        assert Entries(init, account) + [] == Entries(init, account);
      }
    }
  }

  lemma {:induction false} TxDistinct(t: Transaction, ps: seq<Posting>, account: Id)
    requires DistinctIds(ps)
    ensures DistinctKeys(TxEntries(t, ps, account))
  {
    if ps != [] {
      var init, p := ps[..|ps| - 1], ps[|ps| - 1];
      TxDistinct(t, init, account);
      TxEntriesExact(t, init, account);
      var es := TxEntries(t, init, account);
      forall i | 0 <= i < |es|
        ensures es[i].key.id != p.id
      {
        assert es[i] in es;
        var q :| q in init && es[i] == EntryOf(t, q);
        var n :| 0 <= n < |init| && init[n] == q;
        assert ps[n] == q;
      }
    }
  }

  lemma {:induction false} AllDistinct(txs: seq<Transaction>, account: Id)
    requires UniquePostings(txs)
    ensures DistinctKeys(Entries(txs, account))
  {
    if txs != [] {
      var init, t := txs[..|txs| - 1], txs[|txs| - 1];
      assert forall i, j :: 0 <= i < j < |init| ==> DisjointIds(init[i], init[j]) by {
        assert forall i, j :: 0 <= i < j < |init| ==> DisjointIds(txs[i], txs[j]);
      }
      AllDistinct(init, account);
      TxDistinct(t, t.postings, account);
      var a, b := Entries(init, account), TxEntries(t, t.postings, account);
      EntriesExact(init, account);
      TxEntriesExact(t, t.postings, account);
      forall i, j | 0 <= i < |a| && 0 <= j < |b|
        ensures a[i].key.id != b[j].key.id
      {
        assert a[i] in a && b[j] in b;
        var n :| 0 <= n < |init| && Carries(init[n], account, a[i]);
        assert DisjointIds(txs[n], txs[|txs| - 1]);
      }
    }
  }

  lemma EntriesPositive(db: Db, account: Id)
    requires Sound(db)
    ensures AmountsPositive(Entries(db.txs, account))
  {
    var es := Entries(db.txs, account);
    EntriesExact(db.txs, account);
    forall i | 0 <= i < |es|
      ensures es[i].amount > 0
    {
      assert es[i] in es;
      var n :| 0 <= n < |db.txs| && Carries(db.txs[n], account, es[i]);
      assert SoundTx(db.ledgers, db.accounts, db.txs[n]);
      var p :| p in db.txs[n].postings && es[i] == EntryOf(db.txs[n], p);
      var m :| 0 <= m < |db.txs[n].postings| && db.txs[n].postings[m] == p;
      assert WellFormedPosting(db.txs[n].postings[m]);
    }
  }

  lemma SideFits(db: Db, account: Id, asset: string, debit: bool)
    requires BalancesOk(db)
    ensures Side(Entries(db.txs, account), asset, debit) <= MAX_INT64
  {
    var k := BalanceKey(account, asset);
    SideTotal(db.txs, account, asset, debit);
    assert RowAgrees(db.txs, db.holds, db.balances, k);
    assert k in db.balances ==> RowFits(db.balances[k]);
  }

  // In every reachable ledger statements are exact for every account.
  lemma LedgerEntriesOk(db: Db, account: Id)
    requires Inv(db)
    ensures EntriesOk(Entries(db.txs, account))
  {
    EntriesPositive(db, account);
    AllDistinct(db.txs, account);
    forall asset
      ensures Side(Entries(db.txs, account), asset, true) <= MAX_INT64
      ensures Side(Entries(db.txs, account), asset, false) <= MAX_INT64
    {
      SideFits(db, account, asset, true);
      SideFits(db, account, asset, false);
    }
  }

  // ---- All pages together -------------------------------------------------------------------------------

  // Following the cursors over an unchanging ledger lists every posting of
  // the period exactly once, by (effective time, id); the last line's running
  // balance in an asset is the closing balance.
  lemma {:induction false} StatementPages(es: seq<Entry>, from: Time, to: Time, limit: nat, pages: nat)
    requires EntriesOk(es) && 1 <= limit <= MAX_LIMIT
    requires forall i :: 0 <= i < |es| ==> es[i].key.id != 0
    requires pages * limit > |PeriodKeys(es, from, to)|
    ensures var keys := PeriodKeys(es, from, to);
            var walk := Walk(seq(pages, i => keys), ZERO_CURSOR, false, limit);
            && Keysets.Ordered(walk, false) && Sorted(walk, false)
            && (forall k :: k in walk <==> exists i :: 0 <= i < |es| && es[i].key == k && from <= k.at <= to)
            && walk == Listing(keys, false)
  {
    var keys := PeriodKeys(es, from, to);
    var tables := seq(pages, i => keys);
    assert pages > 0;
    WalkTerminates(tables, ZERO_CURSOR, false, limit);
    WalkFixed(tables, keys, ZERO_CURSOR, false, limit);
    assert Beyond(keys, Position(ZERO_CURSOR), false) == keys;
    ListingExact(keys, false);
  }

  // The last line of an asset carries the closing balance.
  lemma {:induction false} LastLineCloses(nb: NormalBalance, es: seq<Entry>, from: Time, to: Time, e: Entry)
    requires EntriesOk(es) && from <= e.key.at <= to && e in es
    requires forall i :: 0 <= i < |es| && es[i].asset == e.asset && es[i].key.at <= to ==>
               es[i].key == e.key || Earlier(es[i].key, e.key)
    ensures exists i :: 0 <= i < |es| && es[i].key == e.key
    ensures TrueLine(nb, es, e.key).running == SignedBalance(nb, Raw(es, e.asset, UpToTime(to)))
  {
    EntryUnique(es, e);
    RawSame(es, e.asset, UpTo(e.key), UpToTime(to));
  }

  lemma {:induction false} RawSame(es: seq<Entry>, asset: string, f: Entry -> bool, g: Entry -> bool)
    requires forall i :: 0 <= i < |es| && es[i].asset == asset ==> f(es[i]) == g(es[i])
    ensures Raw(es, asset, f) == Raw(es, asset, g)
  {
    if es != [] {
      RawSame(es[..|es| - 1], asset, f, g);
    }
  }
}
