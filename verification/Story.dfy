// The outbox tells the whole story: every event about a hold or a reversal is
// true of the rows, and every row has exactly the events its state calls for.
// (Posted events are part of the ledger invariant.)
module Stories {
  import opened Int64
  import opened Wrappers
  import opened Decimal
  import opened Money
  import opened Domain
  import opened Fingerprints
  import opened LedgerTables
  import opened LedgerSteps
  import opened LedgerInvariant
  import opened LedgerRuns
  import opened LedgerHistory
  import opened Outcomes
  import opened HoldOutcomes

  // ---- What the outbox says -----------------------------------------------------------

  datatype Kind = Opens | Captures | Releases | Reverses

  predicate Tells(e: Event, kind: Kind, id: Id) {
    match kind
    case Opens => e.HoldCreated? && e.hold == id
    case Captures => e.HoldCaptured? && e.hold == id
    case Releases => e.HoldReleased? && e.hold == id
    case Reverses => e.TransactionReversed? && e.original == id
  }

  // How often.
  function Told(outbox: seq<Event>, kind: Kind, id: Id): nat {
    if outbox == [] then 0
    else Told(outbox[..|outbox| - 1], kind, id) + if Tells(outbox[|outbox| - 1], kind, id) then 1 else 0
  }

  lemma ToldSnoc(outbox: seq<Event>, e: Event, kind: Kind, id: Id)
    ensures Told(outbox + [e], kind, id) == Told(outbox, kind, id) + if Tells(e, kind, id) then 1 else 0
  {
    assert (outbox + [e])[..|outbox|] == outbox;
  }

  function Worth(asset: string, units: int): EventMoney {
    EventMoney(asset, IntText(units))
  }

  predicate OpenedBy(e: Event, h: Hold) {
    && e.HoldCreated? && e.hold == h.id && e.ledger == h.ledger && e.account == h.account && e.key == h.key
    && e.amount == Worth(h.amount.asset, h.amount.units) && e.expiresAt == h.expiresAt && e.createdAt == h.createdAt
  }

  // The part taken and the part given back make up the hold.
  ghost predicate CapturedBy(e: Event, h: Hold) {
    && e.HoldCaptured? && h.status == Captured
    && e.hold == h.id && e.ledger == h.ledger && e.account == h.account && e.transactionId == h.capturedTransaction
    && exists units :: Splits(e, h, units)
  }

  predicate Splits(e: Event, h: Hold, units: int)
    requires e.HoldCaptured?
  {
    && 0 < units <= h.amount.units && e.captured == Worth(h.amount.asset, units)
    && e.released == if units == h.amount.units then None else Some(Worth(h.amount.asset, h.amount.units - units))
  }

  predicate ReleasedBy(e: Event, h: Hold) {
    && e.HoldReleased? && h.status == Released
    && e.hold == h.id && e.ledger == h.ledger && e.account == h.account
    && e.amount == Worth(h.amount.asset, h.amount.units)
  }

  // rev undid t, when and why the event says.
  predicate ReversedBy(e: Event, t: Transaction, rev: Transaction) {
    && e.TransactionReversed? && e.original == t.id && e.reversal == rev.id && e.ledger == t.ledger == rev.ledger
    && t.status == Reversed && t.reversedBy == Some(rev.id) && rev.reverses == Some(t.id)
    && rev.effectiveAt == e.reversedAt && rev.postedAt == Some(e.reversedAt) && rev.createdAt == e.reversedAt
    && rev.reference == "reversal-of:" + IdText(t.id)
    && rev.description == "Reversal of " + t.key + (if e.reason == "" then "" else ": " + e.reason)
  }

  ghost predicate EventTrue(db: Db, e: Event) {
    match e
    case TransactionPosted(_, _, _, _, _, _, _) => true
    case TransactionReversed(_, _, _, _, _) =>
      exists i, j :: 0 <= i < |db.txs| && 0 <= j < |db.txs| && ReversedBy(e, db.txs[i], db.txs[j])
    case HoldCreated(_, _, _, _, _, _, _) => exists i :: 0 <= i < |db.holds| && OpenedBy(e, db.holds[i].hold)
    case HoldCaptured(_, _, _, _, _, _, _) => exists i :: 0 <= i < |db.holds| && CapturedBy(e, db.holds[i].hold)
    case HoldReleased(_, _, _, _, _) => exists i :: 0 <= i < |db.holds| && ReleasedBy(e, db.holds[i].hold)
  }

  // ---- What the rows call for -----------------------------------------------------------

  // The hash a hold's request is recognised by, from the row.
  predicate HoldHashed(row: HoldRow) {
    var h := row.hold;
    row.hash == CanonicalHold(h.account, h.amount.asset, h.amount.units,
                              if h.expiresAtProvided then Some(h.expiresAt) else None, Meta(h.metadata))
  }

  ghost predicate HoldTold(db: Db, row: HoldRow) {
    var h := row.hold;
    && Told(db.outbox, Opens, h.id) == 1
    && Told(db.outbox, Captures, h.id) == (if h.status == Captured then 1 else 0)
    && Told(db.outbox, Releases, h.id) == (if h.status == Released then 1 else 0)
    && (h.status != Captured ==> h.capturedTransaction == None)
    && (h.capturedTransaction.Some? ==> KnownTransaction(db, h.capturedTransaction.value))
    && HoldHashed(row)
  }

  ghost predicate ReversalTold(db: Db, t: Transaction) {
    Told(db.outbox, Reverses, t.id) == if t.status == Reversed then 1 else 0
  }

  ghost predicate EventsTrue(db: Db, outbox: seq<Event>) {
    forall n :: 0 <= n < |outbox| ==> EventTrue(db, outbox[n])
  }

  ghost predicate Story(db: Db) {
    && EventsTrue(db, db.outbox)
    && (forall i :: 0 <= i < |db.holds| ==> HoldTold(db, db.holds[i]))
    && (forall i :: 0 <= i < |db.txs| ==> ReversalTold(db, db.txs[i]))
  }

  // ---- Events stay true ------------------------------------------------------------------

  lemma ReversalStays(e: Event, t: Transaction, u: Transaction, rev: Transaction, later: Transaction)
    requires ReversedBy(e, t, rev) && TxLater(t, u) && TxLater(rev, later)
    requires later.postedAt == rev.postedAt
    ensures ReversedBy(e, u, later)
  {
    assert Fixed(t).id == Fixed(u).id && Fixed(t).ledger == Fixed(u).ledger && Fixed(t).key == Fixed(u).key;
    assert Fixed(rev).id == Fixed(later).id && Fixed(rev).ledger == Fixed(later).ledger;
    assert Fixed(rev).reverses == Fixed(later).reverses && Fixed(rev).effectiveAt == Fixed(later).effectiveAt;
    assert Fixed(rev).createdAt == Fixed(later).createdAt && Fixed(rev).reference == Fixed(later).reference;
    assert Fixed(rev).description == Fixed(later).description;
  }

  // Firm rows keep their time of posting.
  ghost predicate TimesKept(db: Db, after: Db) {
    |db.txs| <= |after.txs|
    && forall i :: 0 <= i < |db.txs| && Firm(db.txs[i].status) ==> after.txs[i].postedAt == db.txs[i].postedAt
  }

  lemma ReversalEventStays(db: Db, after: Db, e: Event)
    requires EventTrue(db, e) && e.TransactionReversed?
    requires Links(db.txs) && TxsExtend(db.txs, after.txs) && TimesKept(db, after)
    ensures EventTrue(after, e)
  {
    var i, j :| 0 <= i < |db.txs| && 0 <= j < |db.txs| && ReversedBy(e, db.txs[i], db.txs[j]);
    assert LinkedRow(db.txs, j);
    assert TxLater(db.txs[i], after.txs[i]) && TxLater(db.txs[j], after.txs[j]);
    ReversalStays(e, db.txs[i], after.txs[i], db.txs[j], after.txs[j]);
  }

  lemma HoldEventStays(db: Db, after: Db, e: Event)
    requires EventTrue(db, e) && !e.TransactionReversed? && HoldsExtend(db.holds, after.holds)
    ensures EventTrue(after, e)
  {
    match e
    case TransactionPosted(_, _, _, _, _, _, _) =>
    case HoldCreated(_, _, _, _, _, _, _) =>
      var i :| 0 <= i < |db.holds| && OpenedBy(e, db.holds[i].hold);
      assert HoldLater(db.holds[i].hold, after.holds[i].hold);
      assert OpenedBy(e, after.holds[i].hold);
    case HoldCaptured(_, _, _, _, _, _, _) =>
      var i :| 0 <= i < |db.holds| && CapturedBy(e, db.holds[i].hold);
      assert HoldLater(db.holds[i].hold, after.holds[i].hold);
    case HoldReleased(_, _, _, _, _) =>
      var i :| 0 <= i < |db.holds| && ReleasedBy(e, db.holds[i].hold);
      assert HoldLater(db.holds[i].hold, after.holds[i].hold);
  }

  // The rows went on from db to after, and the events with them.
  ghost predicate GoesOn(db: Db, after: Db) {
    && Links(db.txs) && TxsExtend(db.txs, after.txs) && HoldsExtend(db.holds, after.holds) && TimesKept(db, after)
    && (after.outbox == db.outbox
        || (|after.outbox| == |db.outbox| + 1 && db.outbox <= after.outbox
            && EventTrue(after, after.outbox[|db.outbox|])))
  }

  lemma EventsStay(db: Db, after: Db)
    requires EventsTrue(db, db.outbox) && GoesOn(db, after)
    ensures EventsTrue(after, after.outbox)
  {
    forall n | 0 <= n < |after.outbox|
      ensures EventTrue(after, after.outbox[n])
    {
      if n < |db.outbox| {
        assert after.outbox[n] == db.outbox[n];
        if db.outbox[n].TransactionReversed? {
          ReversalEventStays(db, after, db.outbox[n]);
        } else {
          HoldEventStays(db, after, db.outbox[n]);
        }
      }
    }
  }

  // ---- What is not stored has not been told ---------------------------------------------

  lemma {:induction false} NotTold(db: Db, outbox: seq<Event>, kind: Kind, id: Id)
    requires EventsTrue(db, outbox)
    requires kind == Reverses ==> forall i :: 0 <= i < |db.txs| ==> db.txs[i].id != id
    requires kind != Reverses ==> forall i :: 0 <= i < |db.holds| ==> db.holds[i].hold.id != id
    ensures Told(outbox, kind, id) == 0
  {
    if outbox != [] {
      var e := outbox[|outbox| - 1];
      NotTold(db, outbox[..|outbox| - 1], kind, id);
      assert EventTrue(db, e);
    }
  }

  // ---- Every step ----------------------------------------------------------------------

  // What one more event adds.
  function More(db: Db, after: Db, kind: Kind, id: Id): nat
    requires |db.outbox| <= |after.outbox|
  {
    if |after.outbox| > |db.outbox| && Tells(after.outbox[|db.outbox|], kind, id) then 1 else 0
  }

  lemma ToldNext(db: Db, after: Db, kind: Kind, id: Id)
    requires after.outbox == db.outbox || (|after.outbox| == |db.outbox| + 1 && db.outbox <= after.outbox)
    ensures Told(after.outbox, kind, id) == Told(db.outbox, kind, id) + More(db, after, kind, id)
  {
    if after.outbox != db.outbox {
      assert after.outbox == db.outbox + [after.outbox[|db.outbox|]];
      ToldSnoc(db.outbox, after.outbox[|db.outbox|], kind, id);
    }
  }

  lemma KnownStays(db: Db, after: Db, id: Id)
    requires KnownTransaction(db, id) && TxsExtend(db.txs, after.txs)
    ensures KnownTransaction(after, id)
  {
    var i :| 0 <= i < |db.txs| && db.txs[i].id == id;
    assert TxLater(db.txs[i], after.txs[i]) && Fixed(after.txs[i]).id == Fixed(db.txs[i]).id;
    assert after.txs[i].id == id;
  }

  // The holds are as they were, and the new event is not about one.
  lemma HoldsToldSame(db: Db, after: Db)
    requires Story(db) && GoesOn(db, after) && after.holds == db.holds
    requires forall kind, id :: kind != Reverses ==> More(db, after, kind, id) == 0
    ensures forall i :: 0 <= i < |after.holds| ==> HoldTold(after, after.holds[i])
  {
    forall i | 0 <= i < |after.holds|
      ensures HoldTold(after, after.holds[i])
    {
      var h := db.holds[i].hold;
      assert HoldTold(db, db.holds[i]);
      ToldNext(db, after, Opens, h.id);
      ToldNext(db, after, Captures, h.id);
      ToldNext(db, after, Releases, h.id);
      if h.capturedTransaction.Some? {
        KnownStays(db, after, h.capturedTransaction.value);
      }
    }
  }

  // No transaction was reversed, and the new event does not say so.
  lemma ReversalsToldSame(db: Db, after: Db)
    requires Story(db) && GoesOn(db, after)
    requires forall id :: More(db, after, Reverses, id) == 0
    requires forall i :: 0 <= i < |db.txs| ==> (after.txs[i].status == Reversed <==> db.txs[i].status == Reversed)
    requires forall i :: |db.txs| <= i < |after.txs| ==>
               after.txs[i].status != Reversed && forall j :: 0 <= j < |db.txs| ==> db.txs[j].id != after.txs[i].id
    ensures forall i :: 0 <= i < |after.txs| ==> ReversalTold(after, after.txs[i])
  {
    forall i | 0 <= i < |after.txs|
      ensures ReversalTold(after, after.txs[i])
    {
      ToldNext(db, after, Reverses, after.txs[i].id);
      if i < |db.txs| {
        assert ReversalTold(db, db.txs[i]);
        assert TxLater(db.txs[i], after.txs[i]) && Fixed(after.txs[i]).id == Fixed(db.txs[i]).id;
      } else {
        NotTold(db, db.outbox, Reverses, after.txs[i].id);
      }
    }
  }

  // A step that only adds and posts transactions.
  ghost predicate Plain(db: Db, after: Db) {
    && GoesOn(db, after) && after.holds == db.holds
    && (forall kind, id :: More(db, after, kind, id) == 0)
    && (forall i :: 0 <= i < |db.txs| ==> (after.txs[i].status == Reversed <==> db.txs[i].status == Reversed))
    && (forall i :: |db.txs| <= i < |after.txs| ==>
          after.txs[i].status != Reversed && forall j :: 0 <= j < |db.txs| ==> db.txs[j].id != after.txs[i].id)
  }

  lemma PlainStory(db: Db, after: Db)
    requires Story(db) && Plain(db, after)
    ensures Story(after)
  {
    EventsStay(db, after);
    HoldsToldSame(db, after);
    ReversalsToldSame(db, after);
  }

  lemma CreatedPlain(db: Db, r: CreateRequest, after: Db, reply: Reply<Transaction>)
    requires Links(db.txs) && TxsExtend(db.txs, after.txs) && UniqueTxs(after.txs) && CreateDone(db, r, after, reply)
    ensures Plain(db, after)
  {
    forall j | 0 <= j < |db.txs|
      ensures after.txs[j].id == db.txs[j].id && after.txs[j].id != after.txs[|db.txs|].id
    {
      assert after.txs[j] == db.txs[j];
    }
    if r.status != Some(Draft) {
      assert after.outbox[|db.outbox|].TransactionPosted?;
    }
  }

  lemma PostedPlain(db: Db, i: nat, now: Time, after: Db, t: Transaction)
    requires Links(db.txs) && TxsExtend(db.txs, after.txs)
    requires i < |db.txs| && db.txs[i].status == Draft && PostDone(db, i, now, after, t)
    ensures Plain(db, after)
  {
    assert after.outbox[|db.outbox|].TransactionPosted?;
  }

  lemma CreateShape(db: Db, r: CreateRequest)
    requires Inv(db) && Step(db, Create(r)) != db
    ensures CreateDone(db, r, Step(db, Create(r)), ServiceCreate(db, r).1)
  {
    CreateExact(db, r);
  }

  lemma CreateStory(db: Db, r: CreateRequest)
    requires Inv(db) && Story(db) && Step(db, Create(r)) != db
    ensures Story(Step(db, Create(r)))
  {
    StepExtends(db, Create(r));
    StepKeeps(db, Create(r));
    CreateShape(db, r);
    CreatedPlain(db, r, Step(db, Create(r)), ServiceCreate(db, r).1);
    PlainStory(db, Step(db, Create(r)));
  }

  lemma PostShape(db: Db, id: Id, now: Time) returns (i: nat)
    requires Inv(db) && Step(db, Post(id, now)) != db
    ensures i < |db.txs| && db.txs[i].id == id && db.txs[i].status == Draft && PostTransaction(db, id, now).1.Done?
    ensures PostDone(db, i, now, Step(db, Post(id, now)), PostTransaction(db, id, now).1.value)
  {
    i := FindTx(db.txs, id).value;
    PostExact(db, i, now);
  }

  lemma PostStory(db: Db, id: Id, now: Time)
    requires Inv(db) && Story(db) && Step(db, Post(id, now)) != db
    ensures Story(Step(db, Post(id, now)))
  {
    var i := PostShape(db, id, now);
    StepExtends(db, Post(id, now));
    PostedPlain(db, i, now, Step(db, Post(id, now)), PostTransaction(db, id, now).1.value);
    PlainStory(db, Step(db, Post(id, now)));
  }

  // ---- Reversals --------------------------------------------------------------------------

  lemma ReverseGoesOn(db: Db, i: nat, c: Command, after: Db, rev: Transaction)
    requires Links(db.txs) && TxsExtend(db.txs, after.txs) && c.ReverseOf? && i < |db.txs|
    requires ReverseDone(db, i, c.key, c.reason, c.now, c.revId, c.ids, after, rev)
    ensures GoesOn(db, after)
  {
    var e := after.outbox[|db.outbox|];
    assert after.txs[i] == db.txs[i].(status := Reversed, reversedBy := Some(c.revId));
    assert after.txs[|db.txs|] == rev;
    assert ReversedBy(e, after.txs[i], after.txs[|db.txs|]);
    assert EventTrue(after, e);
  }

  lemma ReverseTold(db: Db, i: nat, c: Command, after: Db, rev: Transaction, n: nat)
    requires Story(db) && c.ReverseOf? && i < |db.txs| && db.txs[i].status == Posted && UniqueTxs(after.txs)
    requires ReverseDone(db, i, c.key, c.reason, c.now, c.revId, c.ids, after, rev) && n < |after.txs|
    ensures ReversalTold(after, after.txs[n])
  {
    var marked := db.txs[i].(status := Reversed, reversedBy := Some(c.revId));
    assert after.txs[i] == marked && after.txs[|db.txs|] == rev;
    ToldNext(db, after, Reverses, after.txs[n].id);
    if n < |db.txs| {
      assert ReversalTold(db, db.txs[n]);
      assert n != i ==> after.txs[n] == db.txs[n] && after.txs[n].id != after.txs[i].id;
    } else {
      assert after.txs[n].id != after.txs[i].id;
      forall j | 0 <= j < |db.txs|
        ensures db.txs[j].id != rev.id
      {
        assert after.txs[j].id == db.txs[j].id;
      }
      NotTold(db, db.outbox, Reverses, rev.id);
    }
  }

  lemma ReversedStory(db: Db, i: nat, c: Command, after: Db, rev: Transaction)
    requires Story(db) && Links(db.txs) && TxsExtend(db.txs, after.txs) && UniqueTxs(after.txs)
    requires c.ReverseOf? && i < |db.txs| && db.txs[i].status == Posted
    requires ReverseDone(db, i, c.key, c.reason, c.now, c.revId, c.ids, after, rev)
    ensures Story(after)
  {
    ReverseGoesOn(db, i, c, after, rev);
    EventsStay(db, after);
    HoldsToldSame(db, after);
    forall n | 0 <= n < |after.txs|
      ensures ReversalTold(after, after.txs[n])
    {
      ReverseTold(db, i, c, after, rev, n);
    }
  }

  lemma ReverseShape(db: Db, c: Command) returns (i: nat)
    requires Inv(db) && c.ReverseOf? && Step(db, c) != db
    ensures i < |db.txs| && db.txs[i].id == c.id && db.txs[i].status == Posted
    ensures ServiceReverse(db, c.id, c.key, c.reason, c.now, c.revId, c.ids).1.Done?
    ensures ReverseDone(db, i, c.key, c.reason, c.now, c.revId, c.ids, Step(db, c),
                        ServiceReverse(db, c.id, c.key, c.reason, c.now, c.revId, c.ids).1.value)
  {
    i := FindTx(db.txs, c.id).value;
    ReverseExact(db, i, c.key, c.reason, c.now, c.revId, c.ids);
  }

  lemma ReverseStory(db: Db, c: Command)
    requires Inv(db) && Story(db) && c.ReverseOf? && Step(db, c) != db
    ensures Story(Step(db, c))
  {
    var i := ReverseShape(db, c);
    StepExtends(db, c);
    StepKeeps(db, c);
    ReversedStory(db, i, c, Step(db, c), ServiceReverse(db, c.id, c.key, c.reason, c.now, c.revId, c.ids).1.value);
  }

  // ---- Holds -----------------------------------------------------------------------------------

  // The transactions are as they were, and the new event is not a reversal.
  lemma ReversalsUntouched(db: Db, after: Db)
    requires Story(db) && GoesOn(db, after) && after.txs == db.txs
    requires forall id :: More(db, after, Reverses, id) == 0
    ensures forall i :: 0 <= i < |after.txs| ==> ReversalTold(after, after.txs[i])
  {
    ReversalsToldSame(db, after);
  }

  lemma KnownSame(db: Db, after: Db)
    requires after.txs == db.txs
    ensures forall id :: KnownTransaction(after, id) <==> KnownTransaction(db, id)
  {
  }

  // A hold the step has left alone.
  lemma HoldToldSame(db: Db, after: Db, row: HoldRow)
    requires HoldTold(db, row) && after.txs == db.txs
    requires after.outbox == db.outbox || (|after.outbox| == |db.outbox| + 1 && db.outbox <= after.outbox)
    requires forall kind :: kind != Reverses ==> More(db, after, kind, row.hold.id) == 0
    ensures HoldTold(after, row)
  {
    ToldNext(db, after, Opens, row.hold.id);
    ToldNext(db, after, Captures, row.hold.id);
    ToldNext(db, after, Releases, row.hold.id);
    KnownSame(db, after);
  }

  lemma NewHoldTold(db: Db, r: HoldRequest, after: Db, reply: Reply<Hold>)
    requires Story(db) && HoldDone(db, r, after, reply) && HoldHashed(after.holds[|db.holds|])
    requires forall i :: 0 <= i < |db.holds| ==> db.holds[i].hold.id != r.id
    ensures HoldTold(after, after.holds[|db.holds|])
  {
    NotTold(db, db.outbox, Opens, r.id);
    NotTold(db, db.outbox, Captures, r.id);
    NotTold(db, db.outbox, Releases, r.id);
    ToldNext(db, after, Opens, r.id);
    ToldNext(db, after, Captures, r.id);
    ToldNext(db, after, Releases, r.id);
  }

  lemma HeldStory(db: Db, r: HoldRequest, after: Db, reply: Reply<Hold>)
    requires Story(db) && Links(db.txs) && HoldsExtend(db.holds, after.holds) && TxsExtend(db.txs, after.txs)
    requires HoldDone(db, r, after, reply) && HoldHashed(after.holds[|db.holds|])
    requires HoldIdsDiffer(after.holds)
    ensures Story(after)
  {
    var h := after.holds[|db.holds|].hold;
    assert OpenedBy(after.outbox[|db.outbox|], h);
    assert EventTrue(after, after.outbox[|db.outbox|]);
    EventsStay(db, after);
    ReversalsUntouched(db, after);
    forall i | 0 <= i < |db.holds|
      ensures db.holds[i].hold.id != r.id
    {
      assert after.holds[i] == db.holds[i];
    }
    NewHoldTold(db, r, after, reply);
    forall i | 0 <= i < |after.holds|
      ensures HoldTold(after, after.holds[i])
    {
      if i < |db.holds| {
        assert after.holds[i] == db.holds[i] && HoldTold(db, db.holds[i]);
        HoldToldSame(db, after, after.holds[i]);
      }
    }
  }

  lemma HoldShape(db: Db, r: HoldRequest)
    requires Inv(db) && Step(db, Reservation(r)) != db
    ensures HoldDone(db, r, Step(db, Reservation(r)), ServiceHold(db, r).1)
    ensures HoldHashed(Step(db, Reservation(r)).holds[|db.holds|])
  {
    ReservationChecked(db, r);
    HoldExact(db, r);
  }

  lemma HoldStory(db: Db, r: HoldRequest)
    requires Inv(db) && Story(db) && Step(db, Reservation(r)) != db
    ensures Story(Step(db, Reservation(r)))
  {
    HoldShape(db, r);
    StepExtends(db, Reservation(r));
    StepKeeps(db, Reservation(r));
    HeldStory(db, r, Step(db, Reservation(r)), ServiceHold(db, r).1);
  }

  // The hold in row i became h, and e says so.
  ghost predicate Ended(db: Db, i: nat, h: Hold, e: Event)
    requires i < |db.holds|
  {
    && db.holds[i].hold.status == Active
    && h == db.holds[i].hold.(status := h.status, capturedTransaction := h.capturedTransaction)
    && ((h.status == Captured && CapturedBy(e, h))
        || (h.status == Released && ReleasedBy(e, h) && h.capturedTransaction == None))
    && (h.capturedTransaction.Some? ==> KnownTransaction(db, h.capturedTransaction.value))
  }

  lemma EndedTold(db: Db, i: nat, h: Hold, after: Db, e: Event, n: nat)
    requires Story(db) && i < |db.holds| && Ended(db, i, h, e) && EndDone(db, i, h, after, e) && n < |after.holds|
    requires HoldIdsDiffer(db.holds)
    ensures HoldTold(after, after.holds[n])
  {
    assert HoldTold(db, db.holds[n]);
    assert after.outbox[|db.outbox|] == e;
    if n == i {
      assert after.holds[i].hold == h;
      ToldNext(db, after, Opens, h.id);
      ToldNext(db, after, Captures, h.id);
      ToldNext(db, after, Releases, h.id);
      KnownSame(db, after);
    } else {
      assert after.holds[n] == db.holds[n] && db.holds[n].hold.id != db.holds[i].hold.id;
      HoldToldSame(db, after, after.holds[n]);
    }
  }

  lemma EndedStory(db: Db, i: nat, h: Hold, after: Db, e: Event)
    requires Story(db) && Links(db.txs) && HoldsExtend(db.holds, after.holds) && TxsExtend(db.txs, after.txs)
    requires i < |db.holds| && Ended(db, i, h, e) && EndDone(db, i, h, after, e)
    requires HoldIdsDiffer(db.holds)
    ensures Story(after)
  {
    assert after.outbox[|db.outbox|] == e && after.holds[i].hold == h;
    assert EventTrue(after, e);
    EventsStay(db, after);
    ReversalsUntouched(db, after);
    forall n | 0 <= n < |after.holds|
      ensures HoldTold(after, after.holds[n])
    {
      EndedTold(db, i, h, after, e, n);
    }
  }

  lemma CaptureShape(db: Db, c: Command) returns (i: nat, h: Hold, e: Event)
    requires Inv(db) && Story(db) && c.Capture? && Step(db, c) != db
    ensures i < |db.holds| && Ended(db, i, h, e) && EndDone(db, i, h, Step(db, c), e)
  {
    i := FindHold(db.holds, c.id).value;
    var g := db.holds[i].hold;
    h := g.(status := Captured, capturedTransaction := c.transactionId);
    e := CaptureEvent(g, c.amount, c.transactionId, c.now);
    CaptureOkExact(c.amount);
    CaptureExact(db, i, c.amount, c.transactionId, c.now);
    CaptureTrue(db, i, c.amount, c.transactionId, c.now);
  }

  lemma CaptureTrue(db: Db, i: nat, amount: Option<Amount>, transactionId: Option<Id>, now: Time)
    requires Inv(db) && i < |db.holds| && CaptureOk(amount) && CaptureFits(db.holds[i].hold, amount)
    ensures CapturedBy(CaptureEvent(db.holds[i].hold, amount, transactionId, now),
                       db.holds[i].hold.(status := Captured, capturedTransaction := transactionId))
  {
    var h := db.holds[i].hold;
    assert HoldRowOk(db.accounts, h);
    assert Splits(CaptureEvent(h, amount, transactionId, now), h.(status := Captured, capturedTransaction := transactionId),
                  if amount.Some? then amount.value.units else h.amount.units);
  }

  lemma ReleaseShape(db: Db, c: Command) returns (i: nat, h: Hold, e: Event)
    requires Inv(db) && Story(db) && c.Release? && Step(db, c) != db
    ensures i < |db.holds| && Ended(db, i, h, e) && EndDone(db, i, h, Step(db, c), e)
  {
    i := FindHold(db.holds, c.id).value;
    var g := db.holds[i].hold;
    h := g.(status := Released);
    e := HoldReleased(g.id, g.ledger, g.account, Worth(g.amount.asset, g.amount.units), c.now);
    ReleaseExact(db, i, c.now);
    assert HoldTold(db, db.holds[i]);
  }

  lemma EndStory(db: Db, c: Command)
    requires Inv(db) && Story(db) && (c.Capture? || c.Release?) && Step(db, c) != db
    ensures Story(Step(db, c))
  {
    var i, h, e;
    if c.Capture? {
      i, h, e := CaptureShape(db, c);
    } else {
      i, h, e := ReleaseShape(db, c);
    }
    StepExtends(db, c);
    EndedStory(db, i, h, Step(db, c), e);
  }

  // ---- Every run -------------------------------------------------------------------------------

  lemma StepStory(db: Db, c: Command)
    requires Inv(db) && Story(db)
    ensures Story(Step(db, c))
  {
    if Step(db, c) != db {
      match c
      case NewLedger(_, _) => RowsStory(db, c);
      case NewAccount(_, _) => RowsStory(db, c);
      case Create(r) => CreateStory(db, r);
      case Post(id, now) => PostStory(db, id, now);
      case ReverseOf(_, _, _, _, _, _) => ReverseStory(db, c);
      case Reservation(r) => HoldStory(db, r);
      case Capture(_, _, _, _) => EndStory(db, c);
      case Release(_, _) => EndStory(db, c);
    }
  }

  lemma RowsStory(db: Db, c: Command)
    requires Links(db.txs) && Story(db) && (c.NewLedger? || c.NewAccount?)
    ensures Story(Step(db, c))
  {
    var after := Step(db, c);
    Itself(db);
    assert after.txs == db.txs && after.holds == db.holds && after.outbox == db.outbox;
    PlainStory(db, after);
  }

  // In every state a run can reach, the outbox and the rows tell the same
  // story.
  lemma {:induction false} RunStory(cs: seq<Command>)
    ensures Story(Run(EMPTY_DB, cs))
  {
    if cs != [] {
      var init := cs[..|cs| - 1];
      RunStory(init);
      RunKeeps(init);
      StepStory(Run(EMPTY_DB, init), cs[|cs| - 1]);
    }
  }

  // A hold is captured, released or active exactly as its events say, and the
  // one that ends it carries its data.
  lemma HoldStatusTold(cs: seq<Command>, i: nat)
    requires i < |Run(EMPTY_DB, cs).holds|
    ensures var db := Run(EMPTY_DB, cs);
            var h := db.holds[i].hold;
            && (h.status == Captured <==> Told(db.outbox, Captures, h.id) == 1)
            && (h.status == Released <==> Told(db.outbox, Releases, h.id) == 1)
            && (h.status == Active <==> Told(db.outbox, Captures, h.id) == 0 && Told(db.outbox, Releases, h.id) == 0)
            && (forall e :: e in db.outbox && Tells(e, Captures, h.id) ==> CapturedBy(e, h))
            && (forall e :: e in db.outbox && Tells(e, Releases, h.id) ==> ReleasedBy(e, h))
            && (forall e :: e in db.outbox && Tells(e, Opens, h.id) ==> OpenedBy(e, h))
  {
    var db := Run(EMPTY_DB, cs);
    RunStory(cs);
    RunKeeps(cs);
    assert HoldTold(db, db.holds[i]) && HoldRowOk(db.accounts, db.holds[i].hold);
    forall e | e in db.outbox
      ensures EventTrue(db, e)
    {
      var n :| 0 <= n < |db.outbox| && db.outbox[n] == e;
      assert EventTrue(db, db.outbox[n]);
    }
    forall e | e in db.outbox && e.HoldCaptured? && e.hold == db.holds[i].hold.id
      ensures CapturedBy(e, db.holds[i].hold)
    {
      CaptureOf(db, e, i);
    }
    forall e | e in db.outbox && e.HoldReleased? && e.hold == db.holds[i].hold.id
      ensures ReleasedBy(e, db.holds[i].hold)
    {
      ReleaseOf(db, e, i);
    }
    forall e | e in db.outbox && e.HoldCreated? && e.hold == db.holds[i].hold.id
      ensures OpenedBy(e, db.holds[i].hold)
    {
      OpeningOf(db, e, i);
    }
  }

  ghost predicate HoldIdsDiffer(holds: seq<HoldRow>) {
    forall a, b :: 0 <= a < b < |holds| ==> holds[a].hold.id != holds[b].hold.id
  }

  lemma CaptureOf(db: Db, e: Event, i: nat)
    requires EventTrue(db, e) && HoldIdsDiffer(db.holds) && i < |db.holds| && e.HoldCaptured? && e.hold == db.holds[i].hold.id
    ensures CapturedBy(e, db.holds[i].hold)
  {
    var j :| 0 <= j < |db.holds| && CapturedBy(e, db.holds[j].hold);
    assert j == i;
  }

  lemma ReleaseOf(db: Db, e: Event, i: nat)
    requires EventTrue(db, e) && HoldIdsDiffer(db.holds) && i < |db.holds| && e.HoldReleased? && e.hold == db.holds[i].hold.id
    ensures ReleasedBy(e, db.holds[i].hold)
  {
    var j :| 0 <= j < |db.holds| && ReleasedBy(e, db.holds[j].hold);
    assert j == i;
  }

  lemma OpeningOf(db: Db, e: Event, i: nat)
    requires EventTrue(db, e) && HoldIdsDiffer(db.holds) && i < |db.holds| && e.HoldCreated? && e.hold == db.holds[i].hold.id
    ensures OpenedBy(e, db.holds[i].hold)
  {
    var j :| 0 <= j < |db.holds| && OpenedBy(e, db.holds[j].hold);
    assert j == i;
  }
}
