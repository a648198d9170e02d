// A request sent again under its key, at any later time and whatever has
// happened since: the first reply again if it is the same request, a conflict
// if it is not (services/ledger-core/internal/adapters/postgres/
// store.go:521-652, 657-676, 865-885, 1017-1036).
module Retries {
  import opened Int64
  import opened Wrappers
  import opened Money
  import opened Domain
  import opened Fingerprints
  import opened LedgerTables
  import opened LedgerSteps
  import opened LedgerInvariant
  import opened LedgerRuns
  import opened LedgerHistory
  import opened Outcomes
  import opened HoldOutcomes
  import opened Stories

  // ---- Creates and reversals -----------------------------------------------------------

  // A key and its response, once stored, stay.
  lemma KeyStays(db: Db, cs: seq<Command>, key: string)
    requires Inv(db) && key in db.keys
    ensures Inv(Run(db, cs)) && key in Run(db, cs).keys && Run(db, cs).keys[key] == db.keys[key]
  {
    RunExtends(db, cs);
  }

  // What a client may change and still mean the same request: what the
  // service draws itself, and the order of the postings.
  ghost predicate SameCreate(r: CreateRequest, q: CreateRequest) {
    && r.ledger == q.ledger && r.reference == q.reference && r.description == q.description
    && (r.status == Some(Draft) <==> q.status == Some(Draft))
    && r.effectiveAt == q.effectiveAt && Meta(r.metadata) == Meta(q.metadata)
    && SameLegs(r.postings, q.postings)
  }

  lemma SameCreateExact(r: CreateRequest, q: CreateRequest)
    requires CreateOk(r) && CreateOk(q)
    ensures TransactionFingerprint(BuildTransaction(r)) == TransactionFingerprint(BuildTransaction(q)) <==> SameCreate(r, q)
  {
    FingerprintExact(BuildTransaction(r), BuildTransaction(q));
    BuiltFrom(r);
    BuiltFrom(q);
  }

  lemma CreateStores(db: Db, r: CreateRequest)
    requires ServiceCreate(db, r).1.Done? && !ServiceCreate(db, r).1.replayed
    ensures CreateOk(r) && Balanced(r.postings)
    ensures r.key !in db.keys && r.key in Step(db, Create(r)).keys
    ensures Step(db, Create(r)).keys[r.key].hash == TransactionFingerprint(BuildTransaction(r))
    ensures Shows(Step(db, Create(r)).keys[r.key].response, ServiceCreate(db, r).1.value)
  {
  }

  lemma CreateReplays(db: Db, r: CreateRequest)
    requires CreateOk(r) && Balanced(r.postings) && r.key in db.keys
    ensures ServiceCreate(db, r)
         == (db, if db.keys[r.key].hash == TransactionFingerprint(BuildTransaction(r)) then Done(db.keys[r.key].response, true)
                 else Refused(IdempotencyConflict))
  {
  }

  // A create that went through, sent again after any run of commands: the
  // reply shows what the first reply was, or the request is another one.
  lemma CreateAgain(db: Db, r: CreateRequest, cs: seq<Command>, again: CreateRequest)
    requires Inv(db) && ServiceCreate(db, r).1.Done? && !ServiceCreate(db, r).1.replayed
    requires again.key == r.key && CreateOk(again) && Balanced(again.postings)
    ensures var first := ServiceCreate(db, r).1.value;
            var later := Run(Step(db, Create(r)), cs);
            var (after, reply) := ServiceCreate(later, again);
            && after == later
            && if SameCreate(r, again) then reply.Done? && reply.replayed && Shows(reply.value, first)
               else reply == Refused(IdempotencyConflict)
  {
    CreateStores(db, r);
    StepKeeps(db, Create(r));
    KeyStays(Step(db, Create(r)), cs, r.key);
    CreateReplays(Run(Step(db, Create(r)), cs), again);
    SameCreateExact(r, again);
  }

  lemma ReverseStores(db: Db, c: Command)
    requires Inv(db) && c.ReverseOf? && Step(db, c) != db
    ensures ServiceReverse(db, c.id, c.key, c.reason, c.now, c.revId, c.ids).1.Done?
    ensures var key := KeyFor(c.id, c.key);
            && key !in db.keys && key in Step(db, c).keys
            && Step(db, c).keys[key].hash == CanonicalReversal(c.id, c.reason)
            && Shows(Step(db, c).keys[key].response, ServiceReverse(db, c.id, c.key, c.reason, c.now, c.revId, c.ids).1.value)
  {
    var i := ReverseShape(db, c);
    StoredUnder(db, i, c, Step(db, c), ServiceReverse(db, c.id, c.key, c.reason, c.now, c.revId, c.ids).1.value);
  }

  lemma StoredUnder(db: Db, i: nat, c: Command, after: Db, rev: Transaction)
    requires c.ReverseOf? && i < |db.txs| && db.txs[i].id == c.id
    requires ReverseDone(db, i, c.key, c.reason, c.now, c.revId, c.ids, after, rev)
    ensures rev.key == KeyFor(c.id, c.key) && rev.key !in db.keys && rev.key in after.keys
    ensures after.keys[rev.key].hash == CanonicalReversal(c.id, c.reason) && Shows(after.keys[rev.key].response, rev)
  {
  }

  lemma ReverseReplays(db: Db, c: Command)
    requires c.ReverseOf? && ReverseOk(c.key, c.reason) && KeyFor(c.id, c.key) in db.keys
    ensures ServiceReverse(db, c.id, c.key, c.reason, c.now, c.revId, c.ids)
         == (db, var stored := db.keys[KeyFor(c.id, c.key)];
                 if stored.hash == CanonicalReversal(c.id, c.reason) then Done(stored.response, true)
                 else Refused(IdempotencyConflict))
  {
  }

  // A reversal that went through, sent again.
  lemma ReverseAgain(db: Db, c: Command, cs: seq<Command>, again: Command)
    requires Inv(db) && c.ReverseOf? && Step(db, c) != db
    requires again.ReverseOf? && ReverseOk(again.key, again.reason) && KeyFor(again.id, again.key) == KeyFor(c.id, c.key)
    ensures var first := ServiceReverse(db, c.id, c.key, c.reason, c.now, c.revId, c.ids).1;
            var later := Run(Step(db, c), cs);
            var (after, reply) := ServiceReverse(later, again.id, again.key, again.reason, again.now, again.revId, again.ids);
            && after == later && first.Done?
            && if again.id == c.id && again.reason == c.reason
               then reply.Done? && reply.replayed && Shows(reply.value, first.value)
               else reply == Refused(IdempotencyConflict)
  {
    ReverseStores(db, c);
    StepKeeps(db, c);
    KeyStays(Step(db, c), cs, KeyFor(c.id, c.key));
    ReverseReplays(Run(Step(db, c), cs), again);
  }

  // Creates and reversals share their keys, but are never the same request.
  lemma CreateOverReversal(db: Db, c: Command, cs: seq<Command>, r: CreateRequest)
    requires Inv(db) && c.ReverseOf? && Step(db, c) != db
    requires r.key == KeyFor(c.id, c.key) && CreateOk(r) && Balanced(r.postings)
    ensures ServiceCreate(Run(Step(db, c), cs), r) == (Run(Step(db, c), cs), Refused(IdempotencyConflict))
  {
    ReverseStores(db, c);
    StepKeeps(db, c);
    KeyStays(Step(db, c), cs, r.key);
    CreateReplays(Run(Step(db, c), cs), r);
  }

  lemma ReversalOverCreate(db: Db, r: CreateRequest, cs: seq<Command>, c: Command)
    requires Inv(db) && ServiceCreate(db, r).1.Done? && !ServiceCreate(db, r).1.replayed
    requires c.ReverseOf? && ReverseOk(c.key, c.reason) && KeyFor(c.id, c.key) == r.key
    ensures var later := Run(Step(db, Create(r)), cs);
            ServiceReverse(later, c.id, c.key, c.reason, c.now, c.revId, c.ids) == (later, Refused(IdempotencyConflict))
  {
    CreateStores(db, r);
    StepKeeps(db, Create(r));
    KeyStays(Step(db, Create(r)), cs, r.key);
    ReverseReplays(Run(Step(db, Create(r)), cs), c);
  }

  // ---- Holds -----------------------------------------------------------------------------

  predicate SameHold(r: HoldRequest, q: HoldRequest) {
    r.account == q.account && r.amount == q.amount && r.expiresAt == q.expiresAt && Meta(r.metadata) == Meta(q.metadata)
  }

  lemma HoldRowStays(db: Db, cs: seq<Command>, i: nat)
    requires Inv(db) && i < |db.holds|
    ensures Inv(Run(db, cs)) && i < |Run(db, cs).holds|
    ensures Run(db, cs).holds[i].hash == db.holds[i].hash && HoldLater(db.holds[i].hold, Run(db, cs).holds[i].hold)
  {
    RunExtends(db, cs);
  }

  lemma HoldKeyAt(holds: seq<HoldRow>, i: nat)
    requires i < |holds| && forall a, b :: 0 <= a < b < |holds| ==> holds[a].hold.key != holds[b].hold.key
    ensures FindHoldKey(holds, holds[i].hold.key) == Some(i)
  {
  }

  lemma HoldReplays(db: Db, r: HoldRequest, i: nat)
    requires Inv(db) && i < |db.holds| && db.holds[i].hold.key == r.key && HoldOk(r)
    ensures ServiceHold(db, r)
         == (db, if db.holds[i].hash == HoldFingerprint(BuildHold(r)) then Done(db.holds[i].hold, true)
                 else Refused(IdempotencyConflict))
  {
    HoldKeyAt(db.holds, i);
    RequestOkExact(r);
  }

  lemma HoldStores(db: Db, r: HoldRequest)
    requires Inv(db) && Step(db, Reservation(r)) != db
    ensures var after := Step(db, Reservation(r));
            && HoldOk(r) && |after.holds| == |db.holds| + 1
            && after.holds[|db.holds|].hold.key == r.key
            && after.holds[|db.holds|].hash == HoldFingerprint(BuildHold(r))
            && ServiceHold(db, r).1 == Done(after.holds[|db.holds|].hold, false)
  {
    ReservationChecked(db, r);
    HoldShape(db, r);
    RequestOkExact(r);
  }

  lemma SameHoldExact(r: HoldRequest, q: HoldRequest)
    ensures HoldFingerprint(BuildHold(r)) == HoldFingerprint(BuildHold(q)) <==> SameHold(r, q)
  {
  }

  // A reservation that went through, sent again: the hold as it is by then,
  // which differs from the first reply by its end at most.
  lemma HoldAgain(db: Db, r: HoldRequest, cs: seq<Command>, again: HoldRequest)
    requires Inv(db) && Step(db, Reservation(r)) != db && again.key == r.key && HoldOk(again)
    ensures var first := ServiceHold(db, r).1;
            var later := Run(Step(db, Reservation(r)), cs);
            var (after, reply) := ServiceHold(later, again);
            && after == later && first.Done?
            && if SameHold(r, again) then reply.Done? && reply.replayed && HoldLater(first.value, reply.value)
               else reply == Refused(IdempotencyConflict)
  {
    HoldStores(db, r);
    StepKeeps(db, Reservation(r));
    HoldRowStays(Step(db, Reservation(r)), cs, |db.holds|);
    HoldReplays(Run(Step(db, Reservation(r)), cs), again, |db.holds|);
    SameHoldExact(r, again);
  }
}
