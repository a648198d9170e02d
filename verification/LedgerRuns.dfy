// Every step keeps the invariant, so every run does.
module LedgerRuns {
  import opened Int64
  import opened Wrappers
  import opened Decimal
  import opened Money
  import opened Domain
  import opened Fingerprints
  import opened LedgerTables
  import opened LedgerSteps
  import opened LedgerInvariant

  // ---- Create ------------------------------------------------------------------------

  lemma LinksAppend(txs: seq<Transaction>, t: Transaction)
    requires Links(txs) && t.reversedBy.None? && t.reverses.None? && t.status != Reversed
    ensures Links(txs + [t])
  {
    var txs' := txs + [t];
    forall i | 0 <= i < |txs'|
      ensures LinkedRow(txs', i)
    {
      if i < |txs| {
        LinkedKept(txs, txs', i);
      }
    }
  }

  // Links only look at identities, directions and postings.
  lemma LinkedKept(txs: seq<Transaction>, txs': seq<Transaction>, i: int)
    requires 0 <= i < |txs| <= |txs'|
    requires forall j :: 0 <= j < |txs| ==> txs'[j].(status := Draft, postedAt := None) == txs[j].(status := Draft, postedAt := None)
    requires LinkedRow(txs, i)
    requires txs'[i].status == txs[i].status || (txs[i].status == Draft && txs'[i].status == Posted)
    ensures LinkedRow(txs', i)
  {
    if txs[i].reversedBy.Some? {
      var j :| Linked(txs, i, j);
      assert Linked(txs', i, j);
    }
    if txs[i].reverses.Some? {
      var j :| Linked(txs, j, i);
      assert Linked(txs', j, i);
    }
  }

  lemma SoundAppend(db: Db, t: Transaction)
    requires Sound(db) && Balanced(t.postings) && t.ledger in db.ledgers
    requires AccountsFault(db.accounts, t.ledger, t.postings).None?
    ensures forall i :: 0 <= i < |db.txs + [t]| ==> SoundTx(db.ledgers, db.accounts, (db.txs + [t])[i])
  {
    AccountsFaultSound(db.accounts, t.ledger, t.postings);
    forall i | 0 <= i < |db.txs + [t]|
      ensures SoundTx(db.ledgers, db.accounts, (db.txs + [t])[i])
    {
      assert i < |db.txs| ==> SoundTx(db.ledgers, db.accounts, db.txs[i]);
    }
  }

  lemma RowsAppend(txs: seq<Transaction>, holds: seq<HoldRow>, b: map<BalanceKey, Balance>, t: Transaction, c: Column)
    requires RowsExist(txs, holds, b)
    ensures RowsExist(txs + [t], holds, Applied(b, t.postings, c))
  {
  }

  // What the service guarantees about a transaction it hands to the store.
  ghost predicate NewTransaction(t: Transaction) {
    && Balanced(t.postings)
    && (t.status == Draft || t.status == Posted)
    && t.reversedBy.None? && t.reverses.None?
  }

  lemma PostedEventsOf(t: Transaction)
    ensures t.status == Posted ==> |PostedEvents(t)| == 1 && EventOf(PostedEvents(t)[0], t)
    ensures t.status != Posted ==> PostedEvents(t) == []
  {
    EventBuilt(t);
  }

  lemma CreateKeeps(db: Db, t: Transaction)
    requires Inv(db) && NewTransaction(t)
    ensures Inv(CreateTransaction(db, t).0)
  {
    if t.key !in db.keys && CreateBody(db, t).Committed? {
      CreateBodyKeeps(db, t);
    }
  }

  lemma CreateBodyKeeps(db: Db, t: Transaction)
    requires Inv(db) && NewTransaction(t) && CreateBody(db, t).Committed?
    ensures Inv(CreateBody(db, t).db)
  {
    var after := CreateBody(db, t).db;
    var c := ColumnOf(t.status);
    BalancedNonNegative(t.postings);
    AppendUnique(db, t);
    SoundAppend(db, t);
    AppendIndex(db.txs, db.holds, db.balances, t, c);
    RowsAppend(db.txs, db.holds, db.balances, t, c);
    LinksAppend(db.txs, t);
    KeyTableAppend(db.txs, db.keys, t, TransactionFingerprint(t));
    AccountsFaultSound(db.accounts, t.ledger, t.postings);
    ApplyCovered(db.accounts, db.balances, t.postings, c);
    OutboxAppend(db.txs, db.outbox, t);
    PostedEventsOf(t);
    if t.status == Posted {
      assert PostedEvents(t) == [PostedEvents(t)[0]];
    } else {
      assert db.outbox + [] == db.outbox;
    }
    assert OutboxAgrees(after.txs, after.outbox);
  }

  // ---- Post --------------------------------------------------------------------------

  lemma SameIdentity(txs: seq<Transaction>, i: nat, t: Transaction)
    requires i < |txs| && UniqueTxs(txs) && UniquePostings(txs)
    requires t.id == txs[i].id && t.key == txs[i].key && t.postings == txs[i].postings
    ensures UniqueTxs(txs[i := t]) && UniquePostings(txs[i := t])
  {
    var txs' := txs[i := t];
    forall a, b | 0 <= a < b < |txs'|
      ensures DisjointIds(txs'[a], txs'[b])
    {
      assert DisjointIds(txs[a], txs[b]);
    }
  }

  lemma PromoteIndex(txs: seq<Transaction>, holds: seq<HoldRow>, b: map<BalanceKey, Balance>, i: nat, t: Transaction)
    requires IndexAgrees(txs, holds, b) && RowsExist(txs, holds, b)
    requires i < |txs| && txs[i].status == Draft && Firm(t.status) && t.postings == txs[i].postings
    ensures IndexAgrees(txs[i := t], holds, Promoted(b, t.postings))
    ensures RowsExist(txs[i := t], holds, Promoted(b, t.postings))
  {
    var txs', b' := txs[i := t], Promoted(b, t.postings);
    forall k
      ensures RowAgrees(txs', holds, b', k)
    {
      assert RowAgrees(txs, holds, b, k);
      TxSumUpdate(txs, i, t, k, true, true);
      TxSumUpdate(txs, i, t, k, false, true);
      TxSumUpdate(txs, i, t, k, true, false);
      TxSumUpdate(txs, i, t, k, false, false);
      if k !in b {
        Untouched(t.postings, k, true);
        Untouched(t.postings, k, false);
      }
    }
  }

  lemma PromoteCovered(accounts: map<Id, Account>, b: map<BalanceKey, Balance>, ps: seq<Posting>)
    requires Covered(accounts, b) && NonNegative(ps)
    ensures Covered(accounts, Promoted(b, ps))
  {
    forall k | k in Promoted(b, ps)
      ensures Promoted(b, ps)[k].held <= Promoted(b, ps)[k].Grown(accounts[k.account].normal)
    {
      LegSumPrefix(ps, 0, k, true);
      LegSumPrefix(ps, 0, k, false);
    }
  }

  lemma FixedRecalls(t: Transaction, u: Transaction)
    requires Fixed(t) == Fixed(u)
    ensures forall r :: Recalls(r, t) <==> Recalls(r, u)
  {
    var f, g := Fixed(t), Fixed(u);
    assert f.id == t.id && f.ledger == t.ledger && f.reference == t.reference && f.description == t.description;
    assert f.key == t.key && f.effectiveAt == t.effectiveAt && f.reverses == t.reverses;
    assert f.metadata == t.metadata && f.postings == t.postings && f.createdAt == t.createdAt;
    assert g.id == u.id && g.ledger == u.ledger && g.reference == u.reference && g.description == u.description;
    assert g.key == u.key && g.effectiveAt == u.effectiveAt && g.reverses == u.reverses;
    assert g.metadata == u.metadata && g.postings == u.postings && g.createdAt == u.createdAt;
  }

  lemma KeyTableUpdate(txs: seq<Transaction>, keys: map<string, Stored>, i: nat, t: Transaction)
    requires KeyTable(txs, keys) && i < |txs| && Fixed(t) == Fixed(txs[i])
    ensures KeyTable(txs[i := t], keys)
  {
    var txs' := txs[i := t];
    assert t.key == Fixed(t).key == txs[i].key;
    assert forall s: Stored :: StoredFor(s, txs[i]) ==> StoredFor(s, t) by {
      FixedRecalls(txs[i], t);
    }
    forall key | key in keys
      ensures exists j :: 0 <= j < |txs'| && txs'[j].key == key
    {
      var j :| 0 <= j < |txs| && txs[j].key == key;
      assert txs'[j].key == key;
    }
  }

  lemma PostLinks(txs: seq<Transaction>, i: nat, t: Transaction)
    requires Links(txs) && i < |txs| && txs[i].status == Draft && t.status == Posted
    requires t.(status := Draft, postedAt := None) == txs[i].(status := Draft, postedAt := None)
    ensures Links(txs[i := t])
  {
    var txs' := txs[i := t];
    forall j | 0 <= j < |txs'|
      ensures LinkedRow(txs', j)
    {
      assert LinkedRow(txs, j);
      LinkedKept(txs, txs', j);
    }
  }

  lemma PostCounts(txs: seq<Transaction>, outbox: seq<Event>, i: nat, t: Transaction, e: Event, j: nat)
    requires OutboxAgrees(txs, outbox) && UniqueTxs(txs)
    requires i < |txs| && j < |txs| && txs[i].status == Draft && txs[i].reverses.None?
    requires t.status == Posted && t.id == txs[i].id && t.reverses.None? && EventOf(e, t)
    ensures Announcements(outbox + [e], txs[j].id) == if Announced(txs[i := t][j]) then 1 else 0
  {
    AnnouncementsSnoc(outbox, e, txs[j].id);
    assert j != i ==> txs[j].id != txs[i].id;
  }

  lemma PostSources(txs: seq<Transaction>, outbox: seq<Event>, i: nat, t: Transaction, e: Event, n: nat)
    returns (j: nat)
    requires OutboxAgrees(txs, outbox) && i < |txs| && txs[i].status == Draft
    requires EventOf(e, t) && n < |outbox + [e]| && (outbox + [e])[n].TransactionPosted?
    ensures j < |txs| && EventOf((outbox + [e])[n], txs[i := t][j])
  {
    j := i;
    if n < |outbox| {
      j :| 0 <= j < |txs| && EventOf(outbox[n], txs[j]);
      AnnouncedAt(outbox, n, txs[j].id);
    }
  }

  lemma PostOutbox(txs: seq<Transaction>, outbox: seq<Event>, i: nat, t: Transaction, e: Event)
    requires OutboxAgrees(txs, outbox) && UniqueTxs(txs)
    requires i < |txs| && txs[i].status == Draft && txs[i].reverses.None?
    requires t.status == Posted
    requires t.(status := Draft, postedAt := None) == txs[i].(status := Draft, postedAt := None)
    requires EventOf(e, t)
    ensures OutboxAgrees(txs[i := t], outbox + [e])
  {
    var txs' := txs[i := t];
    assert t.id == txs[i].(status := Draft, postedAt := None).id;
    assert t.reverses == txs[i].(status := Draft, postedAt := None).reverses;
    forall j | 0 <= j < |txs'|
      ensures Announcements(outbox + [e], txs'[j].id) == if Announced(txs'[j]) then 1 else 0
    {
      PostCounts(txs, outbox, i, t, e, j);
    }
    forall n | 0 <= n < |outbox + [e]| && (outbox + [e])[n].TransactionPosted?
      ensures exists j :: 0 <= j < |txs'| && EventOf((outbox + [e])[n], txs'[j])
    {
      var j := PostSources(txs, outbox, i, t, e, n);
    }
  }

  lemma SoundUpdate(db: Db, i: nat, t: Transaction, after: Db)
    requires Sound(db) && i < |db.txs| && Fixed(t) == Fixed(db.txs[i])
    requires after.txs == db.txs[i := t] && after.ledgers == db.ledgers && after.accounts == db.accounts
    ensures Sound(after)
  {
    assert SoundTx(db.ledgers, db.accounts, db.txs[i]);
    assert t.ledger == Fixed(t).ledger && t.postings == Fixed(t).postings;
    forall j | 0 <= j < |after.txs|
      ensures SoundTx(after.ledgers, after.accounts, after.txs[j])
    {
      assert SoundTx(db.ledgers, db.accounts, db.txs[j]);
    }
  }

  lemma PostKeepsTransactions(db: Db, i: nat, t: Transaction, after: Db)
    requires TransactionsOk(db) && i < |db.txs| && db.txs[i].status == Draft
    requires t.status == Posted && t == db.txs[i].(status := Posted, postedAt := t.postedAt)
    requires after == db.(txs := db.txs[i := t], balances := after.balances, outbox := after.outbox)
    ensures TransactionsOk(after)
  {
    SameIdentity(db.txs, i, t);
    KeyTableUpdate(db.txs, db.keys, i, t);
    PostLinks(db.txs, i, t);
    SoundUpdate(db, i, t, after);
  }

  lemma PostKeepsBalances(db: Db, i: nat, t: Transaction, after: Db)
    requires BalancesOk(db) && i < |db.txs| && db.txs[i].status == Draft
    requires t.status == Posted && t == db.txs[i].(status := Posted, postedAt := t.postedAt)
    requires WellFormedPostings(t.postings) && TableFits(after.balances)
    requires after == db.(txs := db.txs[i := t], balances := Promoted(db.balances, t.postings), outbox := after.outbox)
    ensures BalancesOk(after)
  {
    BalancedNonNegative(t.postings);
    PromoteIndex(db.txs, db.holds, db.balances, i, t);
    PromoteCovered(db.accounts, db.balances, t.postings);
  }

  lemma PostDraftKeeps(db: Db, i: nat, t: Transaction, now: Time)
    requires Inv(db) && i < |db.txs| && db.txs[i].status == Draft
    requires t == db.txs[i].(status := Posted, postedAt := Some(now))
    requires TableFits(Promoted(db.balances, t.postings))
    ensures Inv(db.(txs := db.txs[i := t], balances := Promoted(db.balances, t.postings),
                    outbox := db.outbox + [NewTransactionPosted(t, now)]))
  {
    var after := db.(txs := db.txs[i := t], balances := Promoted(db.balances, t.postings),
                     outbox := db.outbox + [NewTransactionPosted(t, now)]);
    assert SoundTx(db.ledgers, db.accounts, db.txs[i]);
    assert LinkedRow(db.txs, i);
    PostKeepsTransactions(db, i, t, after);
    PostKeepsBalances(db, i, t, after);
    EventBuilt(t);
    PostOutbox(db.txs, db.outbox, i, t, NewTransactionPosted(t, now));
  }

  lemma PostKeeps(db: Db, id: Id, now: Time)
    requires Inv(db)
    ensures Inv(PostTransaction(db, id, now).0)
  {
    if PostTransaction(db, id, now).0 != db {
      var i := FindTx(db.txs, id).value;
      PostDraftKeeps(db, i, db.txs[i].(status := Posted, postedAt := Some(now)), now);
    }
  }

  // promoteBalances updates existing rows only, and in a reachable ledger
  // that is every row the draft touches.
  lemma PromoteFindsRows(db: Db, i: nat)
    requires Inv(db) && i < |db.txs|
    ensures forall p :: p in db.txs[i].postings ==> KeyOf(p) in db.balances
    ensures Promoted(db.balances, db.txs[i].postings).Keys == (db.balances.Keys + Keys(db.txs[i].postings))
  {
    assert Keys(db.txs[i].postings) <= db.balances.Keys;
  }

  // ---- Reverse -------------------------------------------------------------------------

  lemma ReverseLinks(txs: seq<Transaction>, i: nat, original: Transaction, rev: Transaction)
    requires Links(txs) && i < |txs| && ReverseCheck(txs[i]).None?
    requires original == txs[i].(status := Reversed, reversedBy := Some(rev.id))
    requires rev.status == Posted && rev.reversedBy.None? && rev.reverses == Some(txs[i].id)
    requires rev.ledger == txs[i].ledger && MirrorOf(rev.postings, txs[i].postings)
    requires forall j :: 0 <= j < |txs| ==> txs[j].id != rev.id
    requires UniqueTxs(txs)
    ensures Links(txs[i := original] + [rev])
  {
    var txs' := txs[i := original] + [rev];
    assert Linked(txs', i, |txs|);
    forall j | 0 <= j < |txs'|
      ensures LinkedRow(txs', j)
    {
      if j < |txs| {
        assert LinkedRow(txs, j);
        if j != i && txs[j].reversedBy.Some? {
          var n :| Linked(txs, j, n);
          assert Linked(txs', j, n);
        }
        if txs[j].reverses.Some? {
          var n :| Linked(txs, n, j);
          assert n != i;
          assert Linked(txs', n, j);
        }
      }
    }
  }

  lemma MirrorNonNegative(ps: seq<Posting>, ids: seq<Id>)
    requires |ids| == |ps| && Balanced(ps)
    ensures Balanced(MirrorPostings(ps, ids)) && NonNegative(MirrorPostings(ps, ids))
    ensures MirrorOf(MirrorPostings(ps, ids), ps)
  {
    ReversalBalanced(ps, ids);
    BalancedNonNegative(MirrorPostings(ps, ids));
  }

  lemma UpdateIndex(txs: seq<Transaction>, holds: seq<HoldRow>, b: map<BalanceKey, Balance>, i: nat, t: Transaction)
    requires IndexAgrees(txs, holds, b) && RowsExist(txs, holds, b)
    requires i < |txs| && t.postings == txs[i].postings && Firm(t.status) == Firm(txs[i].status)
    ensures IndexAgrees(txs[i := t], holds, b) && RowsExist(txs[i := t], holds, b)
  {
    var txs' := txs[i := t];
    forall k
      ensures RowAgrees(txs', holds, b, k)
    {
      assert RowAgrees(txs, holds, b, k);
      TxSumUpdate(txs, i, t, k, true, true);
      TxSumUpdate(txs, i, t, k, false, true);
      TxSumUpdate(txs, i, t, k, true, false);
      TxSumUpdate(txs, i, t, k, false, false);
    }
  }

  lemma ReverseOutbox(txs: seq<Transaction>, outbox: seq<Event>, i: nat, t: Transaction)
    requires OutboxAgrees(txs, outbox) && i < |txs|
    requires t.(status := Draft, reversedBy := None) == txs[i].(status := Draft, reversedBy := None)
    requires Announced(t) == Announced(txs[i])
    ensures OutboxAgrees(txs[i := t], outbox)
  {
    var txs' := txs[i := t];
    forall n | 0 <= n < |outbox| && outbox[n].TransactionPosted?
      ensures exists j :: 0 <= j < |txs'| && EventOf(outbox[n], txs'[j])
    {
      var j :| 0 <= j < |txs| && EventOf(outbox[n], txs[j]);
      assert EventOf(outbox[n], txs'[j]);
    }
  }

  lemma MirrorSound(db: Db, i: nat, rev: Transaction)
    requires Sound(db) && i < |db.txs|
    requires rev.ledger == db.txs[i].ledger && Balanced(rev.postings)
    requires MirrorOf(rev.postings, db.txs[i].postings)
    ensures SoundTx(db.ledgers, db.accounts, rev)
  {
    assert SoundTx(db.ledgers, db.accounts, db.txs[i]);
    forall p | p in rev.postings
      ensures p.account in db.accounts && db.accounts[p.account].ledger == rev.ledger
    {
      var n :| 0 <= n < |rev.postings| && rev.postings[n] == p;
      assert db.txs[i].postings[n] in db.txs[i].postings;
    }
  }

  // The rows a reversal writes: the marked original and the new reversal.
  ghost predicate Reverses(db: Db, i: nat, original: Transaction, rev: Transaction) {
    && i < |db.txs| && ReverseCheck(db.txs[i]).None?
    && original == db.txs[i].(status := Reversed, reversedBy := Some(rev.id))
    && rev.status == Posted && rev.reversedBy.None? && rev.reverses == Some(db.txs[i].id)
    && rev.ledger == db.txs[i].ledger && MirrorOf(rev.postings, db.txs[i].postings)
    && Balanced(rev.postings)
    && Insertable(db, rev)
  }

  lemma ReverseKeepsUnique(db: Db, i: nat, original: Transaction, rev: Transaction)
    requires TransactionsOk(db) && Reverses(db, i, original, rev)
    ensures UniqueTxs(db.txs[i := original] + [rev]) && UniquePostings(db.txs[i := original] + [rev])
  {
    AppendUnique(db, rev);
    SameIdentity(db.txs + [rev], i, original);
    assert (db.txs + [rev])[i := original] == db.txs[i := original] + [rev];
  }

  lemma ReverseKeepsSound(db: Db, i: nat, original: Transaction, rev: Transaction, after: Db)
    requires Sound(db) && Reverses(db, i, original, rev)
    requires after.txs == db.txs[i := original] + [rev]
    requires after.ledgers == db.ledgers && after.accounts == db.accounts
    ensures Sound(after)
  {
    MirrorSound(db, i, rev);
    forall j | 0 <= j < |after.txs|
      ensures SoundTx(after.ledgers, after.accounts, after.txs[j])
    {
      assert j < |db.txs| ==> SoundTx(db.ledgers, db.accounts, db.txs[j]);
    }
  }

  lemma ReverseKeepsKeys(db: Db, i: nat, original: Transaction, rev: Transaction, hash: Fingerprint)
    requires KeyTable(db.txs, db.keys) && Reverses(db, i, original, rev)
    ensures KeyTable(db.txs[i := original] + [rev], db.keys[rev.key := Stored(Snapshot(rev), hash)])
  {
    KeyTableUpdate(db.txs, db.keys, i, original);
    KeyTableAppend(db.txs[i := original], db.keys, rev, hash);
  }

  lemma ReverseKeepsTransactions(db: Db, i: nat, original: Transaction, rev: Transaction, hash: Fingerprint, after: Db)
    requires TransactionsOk(db) && Reverses(db, i, original, rev)
    requires after == db.(txs := db.txs[i := original] + [rev], keys := db.keys[rev.key := Stored(Snapshot(rev), hash)],
                          balances := after.balances, outbox := after.outbox)
    ensures TransactionsOk(after)
  {
    ReverseKeepsUnique(db, i, original, rev);
    ReverseKeepsSound(db, i, original, rev, after);
    ReverseKeepsKeys(db, i, original, rev, hash);
    ReverseLinks(db.txs, i, original, rev);
  }

  lemma ReverseKeepsBalances(db: Db, i: nat, original: Transaction, rev: Transaction, after: Db)
    requires BalancesOk(db) && Reverses(db, i, original, rev)
    requires after == db.(txs := db.txs[i := original] + [rev], balances := Applied(db.balances, rev.postings, PostedColumn),
                          keys := after.keys, outbox := after.outbox)
    requires TableFits(after.balances)
    requires forall p :: p in rev.postings ==> p.account in db.accounts
    ensures BalancesOk(after)
  {
    var marked := db.txs[i := original];
    BalancedNonNegative(rev.postings);
    UpdateIndex(db.txs, db.holds, db.balances, i, original);
    AppendIndex(marked, db.holds, db.balances, rev, PostedColumn);
    RowsAppend(marked, db.holds, db.balances, rev, PostedColumn);
    ApplyCovered(db.accounts, db.balances, rev.postings, PostedColumn);
  }

  lemma ReverseKeepsOutbox(db: Db, i: nat, original: Transaction, rev: Transaction, e: Event)
    requires OutboxAgrees(db.txs, db.outbox) && Reverses(db, i, original, rev)
    requires !e.TransactionPosted?
    ensures OutboxAgrees(db.txs[i := original] + [rev], db.outbox + [e])
  {
    var marked := db.txs[i := original];
    ReverseOutbox(db.txs, db.outbox, i, original);
    OutboxAppend(marked, db.outbox, rev);
    OutboxKeep(marked + [rev], db.outbox, e);
  }

  lemma ReverseBodyKeeps(db: Db, id: Id, key: string, reason: string, now: Time, revId: Id, ids: seq<Id>)
    requires Inv(db) && ReverseBody(db, id, key, reason, now, revId, ids).Committed?
    ensures Inv(ReverseBody(db, id, key, reason, now, revId, ids).db)
  {
    var after := ReverseBody(db, id, key, reason, now, revId, ids).db;
    var i := FindTx(db.txs, id).value;
    var original := db.txs[i].(status := Reversed, reversedBy := Some(revId));
    var rev := ReversalRow(db.txs[i], key, reason, now, revId, ids);
    assert SoundTx(db.ledgers, db.accounts, db.txs[i]);
    MirrorNonNegative(db.txs[i].postings, ids);
    MirrorSound(db, i, rev);
    assert Reverses(db, i, original, rev);
    ReverseKeepsTransactions(db, i, original, rev, ReverseFingerprint(id, reason), after);
    ReverseKeepsBalances(db, i, original, rev, after);
    ReverseKeepsOutbox(db, i, original, rev, TransactionReversed(id, revId, original.ledger, reason, now));
  }

  lemma ReverseKeeps(db: Db, id: Id, key: string, reason: string, now: Time, revId: Id, ids: seq<Id>)
    requires Inv(db)
    ensures Inv(ReverseTransaction(db, id, key, reason, now, revId, ids).0)
  {
    if ReverseBody(db, id, key, reason, now, revId, ids).Committed? {
      ReverseBodyKeeps(db, id, key, reason, now, revId, ids);
    }
  }

  // ---- Holds ------------------------------------------------------------------------------

  // A row that covers what it holds: the free funds need no wrapping.
  predicate CoversHeld(r: Balance, nb: NormalBalance) {
    0 <= r.held <= r.Grown(nb) && r.postedDebits >= 0 && r.postedCredits >= 0 && RowFits(r)
  }

  lemma FreeUnwrapped(r: Balance, nb: NormalBalance)
    requires CoversHeld(r, nb)
    ensures r.Available(nb) == r.Free(nb)
  {
  }

  lemma RowCoversHeld(db: Db, k: BalanceKey)
    requires Inv(db) && k.account in db.accounts
    ensures CoversHeld(Row(db.balances, k), db.accounts[k.account].normal)
  {
    SumsNonNegative(db, k);
  }

  lemma AvailableExact(db: Db, k: BalanceKey)
    requires Inv(db) && k.account in db.accounts
    ensures var nb := db.accounts[k.account].normal;
            var r := Row(db.balances, k);
            r.Available(nb) == r.Free(nb)
  {
    RowCoversHeld(db, k);
    FreeUnwrapped(Row(db.balances, k), db.accounts[k.account].normal);
  }

  // Both nets are the exact signed differences of their columns.
  predicate NetsUnwrapped(r: Balance, nb: NormalBalance) {
    && r.PostedNet(nb) == SignedBalance(nb, r.postedDebits - r.postedCredits)
    && r.PendingNet(nb) == SignedBalance(nb, r.pendingDebits - r.pendingCredits)
  }

  // Nor does any net wrap: the columns of a reachable row are what its
  // postings add up to, non-negative and in range.
  lemma NetsExact(db: Db, k: BalanceKey, nb: NormalBalance)
    requires Inv(db)
    ensures RowAgrees(db.txs, db.holds, db.balances, k) && NetsUnwrapped(Row(db.balances, k), nb)
  {
    RowInRange(db, k);
    RowNets(Row(db.balances, k), nb);
  }

  predicate InRange(r: Balance) {
    RowFits(r) && r.postedDebits >= 0 && r.postedCredits >= 0 && r.pendingDebits >= 0 && r.pendingCredits >= 0
  }

  lemma RowInRange(db: Db, k: BalanceKey)
    requires Inv(db)
    ensures InRange(Row(db.balances, k))
  {
    SumsNonNegative(db, k);
  }

  lemma RowNets(r: Balance, nb: NormalBalance)
    requires InRange(r)
    ensures NetsUnwrapped(r, nb)
  {
    NetFits(r.postedDebits, r.postedCredits);
    NetFits(r.pendingDebits, r.pendingCredits);
  }

  lemma NetFits(a: int, b: int)
    requires 0 <= a <= MAX_INT64 && 0 <= b <= MAX_INT64
    ensures Wrap(a - b) == a - b && Wrap(b - a) == b - a
  {
  }

  lemma {:induction false} TxSumNonNegative(txs: seq<Transaction>, k: BalanceKey, debit: bool, firm: bool)
    requires forall i :: 0 <= i < |txs| ==> WellFormedPostings(txs[i].postings)
    ensures 0 <= TxSum(txs, k, debit, firm)
  {
    if txs != [] {
      var ps := txs[|txs| - 1].postings;
      TxSumNonNegative(txs[..|txs| - 1], k, debit, firm);
      BalancedNonNegative(ps);
      LegSumPrefix(ps, 0, k, debit);
    }
  }

  lemma {:induction false} HeldSumNonNegative(accounts: map<Id, Account>, holds: seq<HoldRow>, k: BalanceKey)
    requires forall i :: 0 <= i < |holds| ==> HoldRowOk(accounts, holds[i].hold)
    ensures 0 <= HeldSum(holds, k)
  {
    if holds != [] {
      HeldSumNonNegative(accounts, holds[..|holds| - 1], k);
    }
  }

  // No column of the derived table is ever negative.
  lemma SumsNonNegative(db: Db, k: BalanceKey)
    requires Inv(db)
    ensures var r := Row(db.balances, k);
            && r.postedDebits >= 0 && r.postedCredits >= 0
            && r.pendingDebits >= 0 && r.pendingCredits >= 0 && r.held >= 0
  {
    assert RowAgrees(db.txs, db.holds, db.balances, k);
    forall i | 0 <= i < |db.txs|
      ensures WellFormedPostings(db.txs[i].postings)
    {
      assert SoundTx(db.ledgers, db.accounts, db.txs[i]);
    }
    TxSumNonNegative(db.txs, k, true, true);
    TxSumNonNegative(db.txs, k, false, true);
    TxSumNonNegative(db.txs, k, true, false);
    TxSumNonNegative(db.txs, k, false, false);
    HeldSumNonNegative(db.accounts, db.holds, k);
  }

  lemma ReserveIndex(txs: seq<Transaction>, holds: seq<HoldRow>, b: map<BalanceKey, Balance>, holds': seq<HoldRow>, k: BalanceKey, units: int)
    requires IndexAgrees(txs, holds, b)
    requires forall x :: HeldSum(holds', x) == HeldSum(holds, x) + if x == k then units else 0
    ensures IndexAgrees(txs, holds', Reserve(b, k, units))
  {
    forall x
      ensures RowAgrees(txs, holds', Reserve(b, k, units), x)
    {
      assert RowAgrees(txs, holds, b, x);
    }
  }

  ghost predicate NewHold(h: Hold) {
    h.status == Active && 0 < h.amount.units <= MAX_INT64
  }

  lemma HoldInsertIndex(txs: seq<Transaction>, holds: seq<HoldRow>, b: map<BalanceKey, Balance>, row: HoldRow)
    requires IndexAgrees(txs, holds, b) && NewHold(row.hold)
    ensures IndexAgrees(txs, holds + [row], Reserve(b, HoldKey(row.hold), row.hold.amount.units))
  {
    forall x
      ensures HeldSum(holds + [row], x) == HeldSum(holds, x) + if x == HoldKey(row.hold) then row.hold.amount.units else 0
    {
      HeldSumSnoc(holds, row, x);
    }
    ReserveIndex(txs, holds, b, holds + [row], HoldKey(row.hold), row.hold.amount.units);
  }

  lemma HoldInsertRows(txs: seq<Transaction>, holds: seq<HoldRow>, b: map<BalanceKey, Balance>, row: HoldRow)
    requires RowsExist(txs, holds, b)
    ensures RowsExist(txs, holds + [row], Reserve(b, HoldKey(row.hold), row.hold.amount.units))
  {
  }

  lemma ReserveCovered(accounts: map<Id, Account>, b: map<BalanceKey, Balance>, k: BalanceKey, units: int)
    requires Covered(accounts, b) && k.account in accounts
    requires Row(b, k).held + units <= Row(b, k).Grown(accounts[k.account].normal)
    ensures Covered(accounts, Reserve(b, k, units))
  {
  }

  lemma HoldInsertKeepsBalances(db: Db, row: HoldRow, after: Db)
    requires Inv(db) && NewHold(row.hold)
    requires row.hold.account in db.accounts && row.hold.ledger == db.accounts[row.hold.account].ledger
    requires Row(db.balances, HoldKey(row.hold)).Available(db.accounts[row.hold.account].normal) >= row.hold.amount.units
    requires forall i :: 0 <= i < |db.holds| ==> db.holds[i].hold.id != row.hold.id && db.holds[i].hold.key != row.hold.key
    requires after == db.(holds := db.holds + [row],
                          balances := Reserve(db.balances, HoldKey(row.hold), row.hold.amount.units),
                          outbox := after.outbox)
    requires RowFits(after.balances[HoldKey(row.hold)])
    ensures BalancesOk(after)
  {
    var k := HoldKey(row.hold);
    HoldInsertIndex(db.txs, db.holds, db.balances, row);
    HoldInsertRows(db.txs, db.holds, db.balances, row);
    AvailableExact(db, k);
    SumsNonNegative(db, k);
    ReserveCovered(db.accounts, db.balances, k, row.hold.amount.units);
  }

  lemma HoldInsertKeeps(db: Db, h: Hold)
    requires Inv(db) && NewHold(h)
    requires HoldFault(db, h, Row(db.balances, HoldKey(h))).None?
    requires HoldInsert(db, h).Committed?
    ensures Inv(HoldInsert(db, h).db)
  {
    var after := HoldInsert(db, h).db;
    var row := HoldRow(HoldInsert(db, h).value, HoldFingerprint(h));
    HoldInsertKeepsBalances(db, row, after);
    OutboxKeep(db.txs, db.outbox, after.outbox[|db.outbox|]);
    assert after.outbox == db.outbox + [after.outbox[|db.outbox|]];
  }

  lemma CreateHoldKeeps(db: Db, h: Hold)
    requires Inv(db) && NewHold(h)
    ensures Inv(CreateHold(db, h).0)
  {
    if CreateHold(db, h).0 != db {
      HoldInsertKeeps(db, h);
    }
  }

  lemma {:induction false} HeldCovers(accounts: map<Id, Account>, holds: seq<HoldRow>, i: nat, k: BalanceKey)
    requires forall j :: 0 <= j < |holds| ==> HoldRowOk(accounts, holds[j].hold)
    requires i < |holds|
    ensures Reserved(holds[i].hold, k) <= HeldSum(holds, k)
  {
    var last := |holds| - 1;
    if i == last {
      HeldSumNonNegative(accounts, holds[..last], k);
    } else {
      HeldCovers(accounts, holds[..last], i, k);
      assert HoldRowOk(accounts, holds[last].hold);
    }
  }

  // In a reachable state the "balance row missing" error cannot happen, and
  // freeing held funds cannot underflow: ending an active hold succeeds
  // (short of exhausting the version counter).
  lemma CloseSucceeds(db: Db, i: nat, h: Hold, e: Event)
    requires Inv(db) && i < |db.holds| && db.holds[i].hold.status == Active
    requires h.account == db.holds[i].hold.account && h.amount == db.holds[i].hold.amount
    ensures HoldKey(h) in db.balances
    ensures Fits(db.balances[HoldKey(h)].version + 1) ==> CloseHold(db, i, h, e).1 == Done(h, false)
  {
    var k := HoldKey(h);
    assert HoldKey(db.holds[i].hold) in db.balances;
    assert RowAgrees(db.txs, db.holds, db.balances, k);
    HeldCovers(db.accounts, db.holds, i, k);
    assert HoldRowOk(db.accounts, db.holds[i].hold);
    assert RowFits(db.balances[k]);
  }

  lemma CloseKeepsBalances(db: Db, i: nat, row: HoldRow, after: Db)
    requires BalancesOk(db) && i < |db.holds| && db.holds[i].hold.status == Active
    requires row.hold.status == Captured || row.hold.status == Released
    requires row == db.holds[i].(hold := db.holds[i].hold.(status := row.hold.status, capturedTransaction := row.hold.capturedTransaction))
    requires after == db.(holds := db.holds[i := row],
                          balances := Reserve(db.balances, HoldKey(row.hold), -row.hold.amount.units),
                          outbox := after.outbox)
    requires RowFits(after.balances[HoldKey(row.hold)])
    ensures BalancesOk(after)
  {
    var k := HoldKey(row.hold);
    assert HoldRowOk(db.accounts, db.holds[i].hold);
    forall x
      ensures HeldSum(after.holds, x) == HeldSum(db.holds, x) + if x == k then -row.hold.amount.units else 0
    {
      HeldSumUpdate(db.holds, i, row, x);
    }
    ReserveIndex(db.txs, db.holds, db.balances, after.holds, k, -row.hold.amount.units);
  }

  lemma ClosedKeeps(db: Db, i: nat, row: HoldRow, e: Event)
    requires Inv(db) && i < |db.holds| && db.holds[i].hold.status == Active
    requires row.hold.status == Captured || row.hold.status == Released
    requires row == db.holds[i].(hold := db.holds[i].hold.(status := row.hold.status, capturedTransaction := row.hold.capturedTransaction))
    requires RowFits(Reserve(db.balances, HoldKey(row.hold), -row.hold.amount.units)[HoldKey(row.hold)])
    requires !e.TransactionPosted?
    ensures Inv(db.(holds := db.holds[i := row],
                    balances := Reserve(db.balances, HoldKey(row.hold), -row.hold.amount.units),
                    outbox := db.outbox + [e]))
  {
    var after := db.(holds := db.holds[i := row],
                     balances := Reserve(db.balances, HoldKey(row.hold), -row.hold.amount.units),
                     outbox := db.outbox + [e]);
    CloseKeepsBalances(db, i, row, after);
    OutboxKeep(db.txs, db.outbox, e);
  }

  lemma CloseKeeps(db: Db, i: nat, h: Hold, e: Event)
    requires Inv(db) && i < |db.holds| && db.holds[i].hold.status == Active
    requires h.status == Captured || h.status == Released
    requires h == db.holds[i].hold.(status := h.status, capturedTransaction := h.capturedTransaction)
    requires !e.TransactionPosted?
    ensures Inv(CloseHold(db, i, h, e).0)
  {
    if CloseHold(db, i, h, e).0 != db {
      ClosedKeeps(db, i, db.holds[i].(hold := h), e);
    }
  }

  lemma CaptureKeeps(db: Db, id: Id, amount: Option<Amount>, transactionId: Option<Id>, now: Time)
    requires Inv(db)
    ensures Inv(CaptureHold(db, id, amount, transactionId, now).0)
  {
    var i := FindHold(db.holds, id);
    if i.Some? && CaptureFault(db, db.holds[i.value].hold, amount, transactionId).None? {
      var h := db.holds[i.value].hold;
      CloseKeeps(db, i.value, h.(status := Captured, capturedTransaction := transactionId),
                 CapturedEvent(h, amount, transactionId, now));
    }
  }

  lemma ReleaseKeeps(db: Db, id: Id, now: Time)
    requires Inv(db)
    ensures Inv(ReleaseHold(db, id, now).0)
  {
    var i := FindHold(db.holds, id);
    if i.Some? && db.holds[i.value].hold.status == Active {
      var h := db.holds[i.value].hold;
      CloseKeeps(db, i.value, h.(status := Released),
                 HoldReleased(h.id, h.ledger, h.account, NewEventMoney(h.amount), now));
    }
  }

  // ---- Ledgers and accounts -----------------------------------------------------------------

  lemma NewLedgerKeeps(db: Db, id: Id, name: string)
    requires Inv(db)
    ensures Inv(CreateLedger(db, id, name).0)
  {
    if CreateLedger(db, id, name).0 != db {
      LedgerAdded(db, id, name);
    }
  }

  lemma LedgerAdded(db: Db, id: Id, name: string)
    requires Inv(db)
    ensures Inv(db.(ledgers := db.ledgers[id := name]))
  {
    forall i | 0 <= i < |db.txs|
      ensures SoundTx(db.ledgers[id := name], db.accounts, db.txs[i])
    {
      assert SoundTx(db.ledgers, db.accounts, db.txs[i]);
    }
  }

  lemma NewAccountKeeps(db: Db, id: Id, a: Account)
    requires Inv(db)
    ensures Inv(CreateAccount(db, id, a).0)
  {
    if CreateAccount(db, id, a).0 != db {
      AccountAdded(db, id, a);
    }
  }

  lemma AccountAdded(db: Db, id: Id, a: Account)
    requires Inv(db) && id !in db.accounts && a.ledger in db.ledgers
    ensures Inv(db.(accounts := db.accounts[id := a]))
  {
    var accounts := db.accounts[id := a];
    forall i | 0 <= i < |db.txs|
      ensures SoundTx(db.ledgers, accounts, db.txs[i])
    {
      assert SoundTx(db.ledgers, db.accounts, db.txs[i]);
    }
    HoldsKeepAccounts(db, accounts);
  }

  lemma HoldsKeepAccounts(db: Db, accounts: map<Id, Account>)
    requires HoldTable(db.accounts, db.holds) && Covered(db.accounts, db.balances)
    requires forall id :: id in db.accounts ==> id in accounts && accounts[id] == db.accounts[id]
    ensures HoldTable(accounts, db.holds) && Covered(accounts, db.balances)
  {
    forall i | 0 <= i < |db.holds|
      ensures HoldRowOk(accounts, db.holds[i].hold)
    {
      assert HoldRowOk(db.accounts, db.holds[i].hold);
    }
  }

  // ---- Every step, every run --------------------------------------------------------------------

  lemma TransactionStepKeeps(db: Db, c: Command)
    requires Inv(db) && (c.Create? || c.Post? || c.ReverseOf?)
    ensures Inv(Step(db, c))
  {
    match c
    case Create(request) =>
      if CreateRequestFault(request).None? {
        CreateKeeps(db, BuildTransaction(request));
      }
    case Post(id, now) => PostKeeps(db, id, now);
    case ReverseOf(id, key, reason, now, revId, ids) => ReverseKeeps(db, id, key, reason, now, revId, ids);
  }

  lemma HoldStepKeeps(db: Db, c: Command)
    requires Inv(db) && (c.Reservation? || c.Capture? || c.Release?)
    ensures Inv(Step(db, c))
  {
    match c
    case Reservation(request) =>
      if HoldRequestOk(request) {
        CreateHoldKeeps(db, BuildHold(request));
      }
    case Capture(id, amount, transactionId, now) => CaptureKeeps(db, id, amount, transactionId, now);
    case Release(id, now) => ReleaseKeeps(db, id, now);
  }

  lemma StepKeeps(db: Db, c: Command)
    requires Inv(db)
    ensures Inv(Step(db, c))
  {
    match c
    case NewLedger(id, name) => NewLedgerKeeps(db, id, name);
    case NewAccount(id, account) => NewAccountKeeps(db, id, account);
    case Create(_) => TransactionStepKeeps(db, c);
    case Post(_, _) => TransactionStepKeeps(db, c);
    case ReverseOf(_, _, _, _, _, _) => TransactionStepKeeps(db, c);
    case Reservation(_) => HoldStepKeeps(db, c);
    case Capture(_, _, _, _) => HoldStepKeeps(db, c);
    case Release(_, _) => HoldStepKeeps(db, c);
  }

  lemma {:induction false} RunKeeps(cs: seq<Command>)
    ensures Inv(Run(EMPTY_DB, cs))
  {
    if cs == [] {
      EmptyInv();
    } else {
      RunKeeps(cs[..|cs| - 1]);
      StepKeeps(Run(EMPTY_DB, cs[..|cs| - 1]), cs[|cs| - 1]);
    }
  }

  // The integrity verifier never finds a row whose derived sums are not those
  // of its postings.
  lemma {:induction false} VerifierSilent(cs: seq<Command>, k: BalanceKey)
    ensures var db := Run(EMPTY_DB, cs);
            var r := Row(db.balances, k);
            && r.postedDebits == TxSum(db.txs, k, true, true)
            && r.postedCredits == TxSum(db.txs, k, false, true)
            && r.pendingDebits == TxSum(db.txs, k, true, false)
            && r.pendingCredits == TxSum(db.txs, k, false, false)
  {
    RunKeeps(cs);
    var db := Run(EMPTY_DB, cs);
    assert RowAgrees(db.txs, db.holds, db.balances, k);
  }
}
