// The service layer: input checks in front of the store
// (services/ledger-core/internal/app/service.go:185-247, 283-291, 308-381).
module LedgerServices {
  import opened Int64
  import opened Wrappers
  import opened Money
  import opened Domain
  import opened LedgerTables
  import LedgerSteps
  import opened LedgerInvariant
  import opened LedgerStore

  class Service {
    const store: Store

    constructor (store: Store)
      ensures this.store == store
    {
      this.store := store;
    }

    method CheckCreate(r: LedgerSteps.CreateRequest) returns (fault: Option<AppError>)
      requires forall i :: 0 <= i < |r.postings| ==> Fits(r.postings[i].amount.units)
      ensures fault == LedgerSteps.CreateRequestFault(r)
    {
      if |r.key| == 0 || |r.key| > 255 {
        return Some(LedgerSteps.ValidationFailed);
      }
      if r.ledger == 0 {
        return Some(LedgerSteps.ValidationFailed);
      }
      var status := if r.status.Some? then r.status.value else Posted;
      if status != Draft && status != Posted {
        return Some(LedgerSteps.ValidationFailed);
      }
      if |r.postings| > 1000 {
        return Some(LedgerSteps.ValidationFailed);
      }
      var unbalanced := ValidateBalanced(r.postings);
      if unbalanced.Some? {
        return Some(LedgerSteps.BrokenRule);
      }
      return None;
    }

    method CreateTransaction(r: LedgerSteps.CreateRequest) returns (reply: Reply<Transaction>)
      requires forall i :: 0 <= i < |r.postings| ==> Fits(r.postings[i].amount.units)
      requires Inv(store.Tables())
      modifies store
      ensures (store.Tables(), reply) == LedgerSteps.ServiceCreate(old(store.Tables()), r)
      ensures Inv(store.Tables())
    {
      var fault := CheckCreate(r);
      if fault.Some? {
        return LedgerSteps.Refused(fault.value);
      }
      reply := store.CreateTransaction(LedgerSteps.BuildTransaction(r));
    }

    method ReverseTransaction(id: Id, key: string, reason: string, now: Time, revId: Id, ids: seq<Id>)
      returns (reply: Reply<Transaction>)
      requires Inv(store.Tables())
      modifies store
      ensures (store.Tables(), reply) == LedgerSteps.ServiceReverse(old(store.Tables()), id, key, reason, now, revId, ids)
      ensures Inv(store.Tables())
    {
      if |key| > 255 || |reason| > 1024 {
        return LedgerSteps.Refused(LedgerSteps.ValidationFailed);
      }
      reply := store.ReverseTransaction(id, key, reason, now, revId, ids);
    }

    method CreateHold(r: LedgerSteps.HoldRequest) returns (reply: Reply<Hold>)
      requires Fits(r.amount.units) && Inv(store.Tables())
      modifies store
      ensures (store.Tables(), reply) == LedgerSteps.ServiceHold(old(store.Tables()), r)
      ensures Inv(store.Tables())
    {
      if |r.key| == 0 || |r.key| > 255 || r.account == 0 {
        return LedgerSteps.Refused(LedgerSteps.ValidationFailed);
      }
      var valid := ValidateAssetCode(r.amount.asset);
      if !valid || r.amount.units <= 0 {
        return LedgerSteps.Refused(LedgerSteps.ValidationFailed);
      }
      if r.expiresAt.Some? && r.expiresAt.value <= r.now {
        return LedgerSteps.Refused(LedgerSteps.ValidationFailed);
      }
      reply := store.CreateHold(LedgerSteps.BuildHold(r));
    }

    method CaptureHold(id: Id, amount: Option<Amount>, transactionId: Option<Id>, now: Time) returns (reply: Reply<Hold>)
      requires (amount.Some? ==> Fits(amount.value.units)) && Inv(store.Tables())
      modifies store
      ensures (store.Tables(), reply) == LedgerSteps.ServiceCapture(old(store.Tables()), id, amount, transactionId, now)
      ensures Inv(store.Tables())
    {
      if amount.Some? {
        var valid := ValidateAssetCode(amount.value.asset);
        if !valid || amount.value.units <= 0 {
          return LedgerSteps.Refused(LedgerSteps.ValidationFailed);
        }
      }
      reply := store.CaptureHold(id, amount, transactionId, now);
    }
  }
}
