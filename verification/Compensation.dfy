// What posting and reversing do to reports about the past and the future. A
// reversal changes nothing before it takes effect, and is the exact opposite
// of the original afterwards.
module Compensations {
  import opened Wrappers
  import opened Domain
  import opened LedgerTables
  import opened LedgerSteps
  import opened LedgerInvariant
  import opened LedgerRuns
  import opened LedgerHistory
  import opened TrialBalances
  import opened Outcomes
  import opened Stories

  lemma {:induction false} SumReplaced(txs: seq<Transaction>, i: nat, t: Transaction, k: BalanceKey, debit: bool, scope: Scope)
    requires i < |txs| && t.postings == txs[i].postings && Counted(t, scope) == Counted(txs[i], scope)
    ensures Sum(txs[i := t], k, debit, scope) == Sum(txs, k, debit, scope)
  {
    var last := |txs| - 1;
    if i == last {
      assert txs[i := t][..last] == txs[..last];
    } else {
      SumReplaced(txs[..last], i, t, k, debit, scope);
      assert txs[i := t][..last] == txs[..last][i := t];
    }
  }

  lemma ReversalSum(db: Db, i: nat, c: Command, after: Db, rev: Transaction, k: BalanceKey, debit: bool, at: Time)
    requires c.ReverseOf? && i < |db.txs| && db.txs[i].status == Posted && Balanced(db.txs[i].postings)
    requires ReverseDone(db, i, c.key, c.reason, c.now, c.revId, c.ids, after, rev)
    ensures Sum(after.txs, k, debit, PostedAsOf(at))
         == Sum(db.txs, k, debit, PostedAsOf(at)) + if at < c.now then 0 else LegSum(db.txs[i].postings, k, !debit)
  {
    var marked := db.txs[i].(status := Reversed, reversedBy := Some(c.revId));
    SumReplaced(db.txs, i, marked, k, debit, PostedAsOf(at));
    assert after.txs[..|after.txs| - 1] == db.txs[i := marked];
    MirrorOfOriginal(db.txs[i], rev, c);
    MirrorLegs(rev.postings, db.txs[i].postings, k);
  }

  lemma MirrorOfOriginal(original: Transaction, rev: Transaction, c: Command)
    requires c.ReverseOf? && Compensates(original, rev, c.key, c.reason, c.now, c.revId, c.ids)
    requires WellFormedPostings(original.postings)
    ensures MirrorOf(rev.postings, original.postings)
  {
    forall n | 0 <= n < |rev.postings|
      ensures rev.postings[n].direction == Opposite(original.postings[n].direction)
    {
      assert WellFormedPosting(original.postings[n]);
    }
  }

  // A reversal carried out at now leaves every historical sum before now as it
  // was, and from now on adds the original's amounts to the other side.
  lemma ReversalInTime(db: Db, c: Command, i: nat, k: BalanceKey, debit: bool, at: Time)
    requires Inv(db) && c.ReverseOf? && i < |db.txs| && db.txs[i].id == c.id && Step(db, c) != db
    ensures at < c.now ==> Sum(Step(db, c).txs, k, debit, PostedAsOf(at)) == Sum(db.txs, k, debit, PostedAsOf(at))
    ensures at >= c.now ==> Sum(Step(db, c).txs, k, debit, PostedAsOf(at))
                            == Sum(db.txs, k, debit, PostedAsOf(at)) + LegSum(db.txs[i].postings, k, !debit)
  {
    var j := ReverseShape(db, c);
    assert db.txs[j].id == c.id;
    assert SoundTx(db.ledgers, db.accounts, db.txs[j]);
    ReversalSum(db, j, c, Step(db, c), ServiceReverse(db, c.id, c.key, c.reason, c.now, c.revId, c.ids).1.value, k, debit, at);
  }

  // A posted create counts from the time the client gave, or from now.
  lemma CreateInTime(db: Db, r: CreateRequest, k: BalanceKey, debit: bool, at: Time)
    requires Inv(db) && Step(db, Create(r)) != db
    ensures var effective := if r.effectiveAt.Some? then r.effectiveAt.value else r.now;
            Sum(Step(db, Create(r)).txs, k, debit, PostedAsOf(at))
            == Sum(db.txs, k, debit, PostedAsOf(at))
               + if r.status != Some(Draft) && effective <= at then LegSum(r.postings, k, debit) else 0
  {
    CreateShape(db, r);
    CreatedSum(db.txs, r, ServiceCreate(db, r).1.value, k, debit, at);
  }

  lemma CreatedSum(txs: seq<Transaction>, r: CreateRequest, t: Transaction, k: BalanceKey, debit: bool, at: Time)
    requires CreatedFrom(r, t)
    ensures var effective := if r.effectiveAt.Some? then r.effectiveAt.value else r.now;
            Sum(txs + [t], k, debit, PostedAsOf(at))
            == Sum(txs, k, debit, PostedAsOf(at))
               + if r.status != Some(Draft) && effective <= at then LegSum(r.postings, k, debit) else 0
  {
    assert (txs + [t])[..|txs|] == txs;
  }

  lemma {:induction false} SumPosted(txs: seq<Transaction>, i: nat, t: Transaction, k: BalanceKey, debit: bool, at: Time)
    requires i < |txs| && txs[i].status == Draft && t.status == Posted
    requires t.postings == txs[i].postings && t.effectiveAt == txs[i].effectiveAt
    ensures Sum(txs[i := t], k, debit, PostedAsOf(at))
         == Sum(txs, k, debit, PostedAsOf(at)) + if t.effectiveAt <= at then LegSum(t.postings, k, debit) else 0
  {
    var last := |txs| - 1;
    if i == last {
      assert txs[i := t][..last] == txs[..last];
    } else {
      SumPosted(txs[..last], i, t, k, debit, at);
      assert txs[i := t][..last] == txs[..last][i := t];
    }
  }

  // A draft, whenever it is posted, counts from its own effective time: it can
  // change reports about the past.
  lemma PostInTime(db: Db, i: nat, now: Time, k: BalanceKey, debit: bool, at: Time)
    requires Inv(db) && i < |db.txs| && Step(db, Post(db.txs[i].id, now)) != db
    ensures var t := db.txs[i];
            Sum(Step(db, Post(t.id, now)).txs, k, debit, PostedAsOf(at))
            == Sum(db.txs, k, debit, PostedAsOf(at)) + if t.effectiveAt <= at then LegSum(t.postings, k, debit) else 0
  {
    var j := PostShape(db, db.txs[i].id, now);
    SumPosted(db.txs, j, PostTransaction(db, db.txs[i].id, now).1.value, k, debit, at);
  }
}
