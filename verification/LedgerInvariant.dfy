// What holds in every reachable state of the ledger tables.
module LedgerInvariant {
  import opened Int64
  import opened Wrappers
  import opened Decimal
  import opened Money
  import opened Domain
  import opened Fingerprints
  import opened LedgerTables
  import opened LedgerSteps

  // ---- The invariant, table by table -------------------------------------------

  ghost predicate UniqueTxs(txs: seq<Transaction>) {
    forall i, j :: 0 <= i < j < |txs| ==> txs[i].id != txs[j].id && txs[i].key != txs[j].key
  }

  ghost predicate DisjointIds(t: Transaction, u: Transaction) {
    forall p, q :: p in t.postings && q in u.postings ==> p.id != q.id
  }

  ghost predicate UniquePostings(txs: seq<Transaction>) {
    && (forall i :: 0 <= i < |txs| ==> DistinctIds(txs[i].postings))
    && (forall i, j :: 0 <= i < j < |txs| ==> DisjointIds(txs[i], txs[j]))
  }

  // Every stored transaction obeys double entry inside its own ledger.
  ghost predicate SoundTx(ledgers: map<Id, string>, accounts: map<Id, Account>, t: Transaction) {
    && Balanced(t.postings)
    && t.ledger in ledgers
    && forall p :: p in t.postings ==> p.account in accounts && accounts[p.account].ledger == t.ledger
  }

  ghost predicate Sound(db: Db) {
    forall i :: 0 <= i < |db.txs| ==> SoundTx(db.ledgers, db.accounts, db.txs[i])
  }

  // The derived balance row of k equals what its source of truth says.
  ghost predicate RowAgrees(txs: seq<Transaction>, holds: seq<HoldRow>, b: map<BalanceKey, Balance>, k: BalanceKey) {
    var r := Row(b, k);
    && r.postedDebits == TxSum(txs, k, true, true)
    && r.postedCredits == TxSum(txs, k, false, true)
    && r.pendingDebits == TxSum(txs, k, true, false)
    && r.pendingCredits == TxSum(txs, k, false, false)
    && r.held == HeldSum(holds, k)
  }

  ghost predicate IndexAgrees(txs: seq<Transaction>, holds: seq<HoldRow>, b: map<BalanceKey, Balance>) {
    forall k :: RowAgrees(txs, holds, b, k)
  }

  // A balance row exists for everything that was ever posted or held.
  ghost predicate RowsExist(txs: seq<Transaction>, holds: seq<HoldRow>, b: map<BalanceKey, Balance>) {
    && (forall i :: 0 <= i < |txs| ==> Keys(txs[i].postings) <= b.Keys)
    && (forall i :: 0 <= i < |holds| ==> HoldKey(holds[i].hold) in b)
  }

  ghost predicate MirrorOf(ps: seq<Posting>, qs: seq<Posting>) {
    && |ps| == |qs|
    && forall i :: 0 <= i < |ps| ==>
         ps[i].account == qs[i].account && ps[i].amount == qs[i].amount
         && ps[i].direction == Opposite(qs[i].direction)
  }

  // Row i is the original that row j reverses.
  ghost predicate Linked(txs: seq<Transaction>, i: int, j: int) {
    && 0 <= i < j < |txs|
    && txs[i].reversedBy == Some(txs[j].id)
    && txs[j].reverses == Some(txs[i].id)
    && txs[j].ledger == txs[i].ledger
    && MirrorOf(txs[j].postings, txs[i].postings)
  }

  ghost predicate LinkedRow(txs: seq<Transaction>, i: int)
    requires 0 <= i < |txs|
  {
    && (txs[i].status == Reversed <==> txs[i].reversedBy.Some?)
    && (txs[i].reverses.Some? ==> txs[i].status != Draft)
    && (txs[i].reversedBy.Some? ==> exists j :: Linked(txs, i, j))
    && (txs[i].reverses.Some? ==> exists j :: Linked(txs, j, i))
  }

  ghost predicate Links(txs: seq<Transaction>) {
    forall i :: 0 <= i < |txs| ==> LinkedRow(txs, i)
  }

  // What no later change touches: all but the status, the time of posting and
  // the link to a reversal.
  function Fixed(t: Transaction): Transaction {
    t.(status := Draft, postedAt := None, reversedBy := None)
  }

  // r is what a client sees of t, but for the columns that may change: it has
  // no provenance flag, and no metadata is the same as empty metadata.
  predicate Recalls(r: Transaction, t: Transaction) {
    && r.id == t.id && r.ledger == t.ledger && r.reference == t.reference && r.description == t.description
    && r.key == t.key && r.effectiveAt == t.effectiveAt && r.reverses == t.reverses
    && Meta(r.metadata) == Meta(t.metadata) && r.postings == t.postings && r.createdAt == t.createdAt
  }

  // r is what a client sees of t.
  predicate Shows(r: Transaction, t: Transaction) {
    Recalls(r, t) && r.status == t.status && r.postedAt == t.postedAt && r.reversedBy == t.reversedBy
  }

  ghost predicate StoredFor(s: Stored, t: Transaction) {
    Recalls(s.response, t)
  }

  // The two key columns agree: a stored response for every transaction, and
  // only for those, equal to it in everything immutable.
  ghost predicate KeyTable(txs: seq<Transaction>, keys: map<string, Stored>) {
    && (forall i :: 0 <= i < |txs| ==> txs[i].key in keys && StoredFor(keys[txs[i].key], txs[i]))
    && (forall key :: key in keys ==> exists i :: 0 <= i < |txs| && txs[i].key == key)
  }

  ghost predicate HoldRowOk(accounts: map<Id, Account>, h: Hold) {
    && 0 < h.amount.units <= MAX_INT64
    && h.account in accounts && accounts[h.account].ledger == h.ledger
    && h.status != Expired
  }

  ghost predicate HoldTable(accounts: map<Id, Account>, holds: seq<HoldRow>) {
    && (forall i :: 0 <= i < |holds| ==> HoldRowOk(accounts, holds[i].hold))
    && (forall i, j :: 0 <= i < j < |holds| ==>
          holds[i].hold.id != holds[j].hold.id && holds[i].hold.key != holds[j].hold.key)
  }

  // Held funds were there when they were reserved, so they never exceed what
  // the account's own side has ever accumulated.
  ghost predicate Covered(accounts: map<Id, Account>, b: map<BalanceKey, Balance>) {
    forall k :: k in b ==>
      && k.account in accounts
      && b[k].held <= b[k].Grown(accounts[k.account].normal)
  }

  function Announcements(outbox: seq<Event>, id: Id): nat {
    if outbox == [] then 0
    else
      var e := outbox[|outbox| - 1];
      Announcements(outbox[..|outbox| - 1], id) + if e.TransactionPosted? && e.transaction == id then 1 else 0
  }

  // Reversals are posted without a posted event.
  predicate Announced(t: Transaction) {
    Firm(t.status) && t.reverses.None?
  }

  function PostedTime(t: Transaction): Time {
    if t.postedAt.Some? then t.postedAt.value else t.createdAt
  }

  predicate LegShown(e: EventPosting, p: Posting) {
    && e.account == p.account && e.amount.asset == p.amount.asset && e.amount.amount == IntText(p.amount.units)
    && (p.direction == Debit ==> e.direction == "DEBIT") && (p.direction == Credit ==> e.direction == "CREDIT")
    && (p.direction.Unknown? ==> e.direction == p.direction.text)
  }

  // A posted event with everything a consumer may want to know about t.
  ghost predicate EventOf(e: Event, t: Transaction) {
    && e.TransactionPosted? && e.transaction == t.id && e.ledger == t.ledger && e.key == t.key
    && e.description == t.description && e.metadata == t.metadata && e.postedAt == PostedTime(t)
    && |e.postings| == |t.postings|
    && forall i :: 0 <= i < |t.postings| ==> LegShown(e.postings[i], t.postings[i])
  }

  lemma EventBuilt(t: Transaction)
    ensures EventOf(NewTransactionPosted(t, PostedTime(t)), t)
  {
  }

  lemma {:induction false} AnnouncedAt(outbox: seq<Event>, n: nat, id: Id)
    requires n < |outbox| && outbox[n].TransactionPosted? && outbox[n].transaction == id
    ensures Announcements(outbox, id) > 0
  {
    if n < |outbox| - 1 {
      AnnouncedAt(outbox[..|outbox| - 1], n, id);
    }
  }

  // Exactly one posted event per announced transaction, with its contents.
  ghost predicate OutboxAgrees(txs: seq<Transaction>, outbox: seq<Event>) {
    && (forall i :: 0 <= i < |txs| ==>
          Announcements(outbox, txs[i].id) == if Announced(txs[i]) then 1 else 0)
    && (forall n :: 0 <= n < |outbox| && outbox[n].TransactionPosted? ==>
          exists i :: 0 <= i < |txs| && EventOf(outbox[n], txs[i]))
  }

  ghost predicate TransactionsOk(db: Db) {
    && UniqueTxs(db.txs)
    && UniquePostings(db.txs)
    && Sound(db)
    && Links(db.txs)
    && KeyTable(db.txs, db.keys)
  }

  ghost predicate BalancesOk(db: Db) {
    && IndexAgrees(db.txs, db.holds, db.balances)
    && RowsExist(db.txs, db.holds, db.balances)
    && TableFits(db.balances)
    && HoldTable(db.accounts, db.holds)
    && Covered(db.accounts, db.balances)
  }

  ghost predicate Inv(db: Db) {
    TransactionsOk(db) && BalancesOk(db) && OutboxAgrees(db.txs, db.outbox)
  }

  lemma EmptyInv()
    ensures Inv(EMPTY_DB)
  {
  }

  // ---- Appending a transaction -----------------------------------------------------

  lemma AppendUnique(db: Db, t: Transaction)
    requires UniqueTxs(db.txs) && UniquePostings(db.txs) && Insertable(db, t)
    ensures UniqueTxs(db.txs + [t]) && UniquePostings(db.txs + [t])
  {
    var txs := db.txs + [t];
    forall i, j | 0 <= i < j < |txs|
      ensures DisjointIds(txs[i], txs[j])
    {
      if j < |db.txs| {
        assert DisjointIds(db.txs[i], db.txs[j]);
      } else {
        assert db.txs[i] in db.txs;
      }
    }
  }

  lemma {:induction false} AccountsFaultSound(accounts: map<Id, Account>, ledger: Id, ps: seq<Posting>)
    requires AccountsFault(accounts, ledger, ps).None?
    ensures forall p :: p in ps ==> p.account in accounts && accounts[p.account].ledger == ledger
  {
    if ps != [] {
      AccountsFaultSound(accounts, ledger, ps[..|ps| - 1]);
      forall p | p in ps
        ensures p.account in accounts && accounts[p.account].ledger == ledger
      {
        assert p in ps[..|ps| - 1] || p == ps[|ps| - 1];
      }
    }
  }

  lemma AppendIndex(txs: seq<Transaction>, holds: seq<HoldRow>, b: map<BalanceKey, Balance>, t: Transaction, c: Column)
    requires IndexAgrees(txs, holds, b)
    requires c == if Firm(t.status) then PostedColumn else PendingColumn
    ensures IndexAgrees(txs + [t], holds, Applied(b, t.postings, c))
  {
    forall k
      ensures RowAgrees(txs + [t], holds, Applied(b, t.postings, c), k)
    {
      assert RowAgrees(txs, holds, b, k);
      AppliedRow(b, t.postings, c, k);
      TxSumSnoc(txs, t, k, true, true);
      TxSumSnoc(txs, t, k, false, true);
      TxSumSnoc(txs, t, k, true, false);
      TxSumSnoc(txs, t, k, false, false);
    }
  }

  lemma BalancedNonNegative(ps: seq<Posting>)
    requires WellFormedPostings(ps)
    ensures NonNegative(ps)
  {
  }

  lemma ApplyCovered(accounts: map<Id, Account>, b: map<BalanceKey, Balance>, ps: seq<Posting>, c: Column)
    requires Covered(accounts, b) && NonNegative(ps)
    requires forall p :: p in ps ==> p.account in accounts
    ensures Covered(accounts, Applied(b, ps, c))
  {
    forall k | k in Applied(b, ps, c)
      ensures k.account in accounts
      ensures Applied(b, ps, c)[k].held <= Applied(b, ps, c)[k].Grown(accounts[k.account].normal)
    {
      LegSumPrefix(ps, 0, k, true);
      LegSumPrefix(ps, 0, k, false);
    }
  }

  lemma KeyTableAppend(txs: seq<Transaction>, keys: map<string, Stored>, t: Transaction, hash: Fingerprint)
    requires KeyTable(txs, keys) && t.key !in keys
    ensures KeyTable(txs + [t], keys[t.key := Stored(Snapshot(t), hash)])
  {
    var keys' := keys[t.key := Stored(Snapshot(t), hash)];
    forall key | key in keys'
      ensures exists i :: 0 <= i < |txs + [t]| && (txs + [t])[i].key == key
    {
      if key == t.key {
        assert (txs + [t])[|txs|].key == key;
      } else {
        var i :| 0 <= i < |txs| && txs[i].key == key;
        assert (txs + [t])[i].key == key;
      }
    }
  }

  lemma AnnouncementsSnoc(outbox: seq<Event>, e: Event, id: Id)
    ensures Announcements(outbox + [e], id)
         == Announcements(outbox, id) + if e.TransactionPosted? && e.transaction == id then 1 else 0
  {
    assert (outbox + [e])[..|outbox|] == outbox;
  }

  // Every announcement names a stored transaction.
  lemma {:induction false} NotAnnounced(txs: seq<Transaction>, outbox: seq<Event>, id: Id)
    requires forall n :: 0 <= n < |outbox| && outbox[n].TransactionPosted? ==>
               exists i :: 0 <= i < |txs| && EventOf(outbox[n], txs[i])
    requires forall i :: 0 <= i < |txs| ==> txs[i].id != id
    ensures Announcements(outbox, id) == 0
  {
    if outbox != [] {
      var e := outbox[|outbox| - 1];
      NotAnnounced(txs, outbox[..|outbox| - 1], id);
    }
  }

  lemma OutboxKeep(txs: seq<Transaction>, outbox: seq<Event>, e: Event)
    requires OutboxAgrees(txs, outbox) && !e.TransactionPosted?
    ensures OutboxAgrees(txs, outbox + [e])
  {
    forall i | 0 <= i < |txs|
      ensures Announcements(outbox + [e], txs[i].id) == if Announced(txs[i]) then 1 else 0
    {
      AnnouncementsSnoc(outbox, e, txs[i].id);
    }
    forall n | 0 <= n < |outbox + [e]| && (outbox + [e])[n].TransactionPosted?
      ensures exists i :: 0 <= i < |txs| && EventOf((outbox + [e])[n], txs[i])
    {
      assert (outbox + [e])[n] == outbox[n];
    }
  }

  lemma OutboxSources(txs: seq<Transaction>, outbox: seq<Event>, t: Transaction)
    requires OutboxAgrees(txs, outbox)
    ensures forall n :: 0 <= n < |outbox| && outbox[n].TransactionPosted? ==>
              exists i :: 0 <= i < |txs + [t]| && EventOf(outbox[n], (txs + [t])[i])
  {
    forall n | 0 <= n < |outbox| && outbox[n].TransactionPosted?
      ensures exists i :: 0 <= i < |txs + [t]| && EventOf(outbox[n], (txs + [t])[i])
    {
      var i :| 0 <= i < |txs| && EventOf(outbox[n], txs[i]);
      assert EventOf(outbox[n], (txs + [t])[i]);
    }
  }

  lemma AnnounceCount(txs: seq<Transaction>, outbox: seq<Event>, t: Transaction, e: Event, i: nat)
    requires OutboxAgrees(txs, outbox) && Announced(t) && EventOf(e, t)
    requires forall j :: 0 <= j < |txs| ==> txs[j].id != t.id
    requires i <= |txs|
    ensures Announcements(outbox + [e], (txs + [t])[i].id) == if Announced((txs + [t])[i]) then 1 else 0
  {
    AnnouncementsSnoc(outbox, e, (txs + [t])[i].id);
    if i == |txs| {
      NotAnnounced(txs, outbox, t.id);
    } else {
      assert (txs + [t])[i] == txs[i];
    }
  }

  lemma OutboxAnnounce(txs: seq<Transaction>, outbox: seq<Event>, t: Transaction, e: Event)
    requires OutboxAgrees(txs, outbox) && Announced(t) && EventOf(e, t)
    requires forall i :: 0 <= i < |txs| ==> txs[i].id != t.id
    ensures OutboxAgrees(txs + [t], outbox + [e])
  {
    var txs' := txs + [t];
    forall i | 0 <= i < |txs'|
      ensures Announcements(outbox + [e], txs'[i].id) == if Announced(txs'[i]) then 1 else 0
    {
      AnnounceCount(txs, outbox, t, e, i);
    }
    OutboxSources(txs, outbox, t);
    forall n | 0 <= n < |outbox + [e]| && (outbox + [e])[n].TransactionPosted?
      ensures exists i :: 0 <= i < |txs'| && EventOf((outbox + [e])[n], txs'[i])
    {
      if n == |outbox| {
        assert EventOf(e, txs'[|txs|]);
      } else {
        assert (outbox + [e])[n] == outbox[n];
      }
    }
  }

  lemma OutboxAppend(txs: seq<Transaction>, outbox: seq<Event>, t: Transaction)
    requires OutboxAgrees(txs, outbox)
    requires forall i :: 0 <= i < |txs| ==> txs[i].id != t.id
    ensures Announced(t) ==> forall e :: EventOf(e, t) ==> OutboxAgrees(txs + [t], outbox + [e])
    ensures !Announced(t) ==> OutboxAgrees(txs + [t], outbox)
  {
    if Announced(t) {
      forall e | EventOf(e, t)
        ensures OutboxAgrees(txs + [t], outbox + [e])
      {
        OutboxAnnounce(txs, outbox, t, e);
      }
    } else {
      NotAnnounced(txs, outbox, t.id);
      OutboxSources(txs, outbox, t);
    }
  }
}
