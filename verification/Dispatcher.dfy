// The webhook repository and the dispatcher's loop over it:
// services/webhooks/internal/adapters/postgres/repo.go:321-487 and
// services/webhooks/internal/dispatcher/dispatcher.go:80-147.
module Dispatchers {
  import opened Wrappers
  import opened Domain
  import opened Deliveries

  datatype RetryFault = UnknownDelivery | NotRetryable(status: Status)

  predicate AllPicked(table: seq<Delivery>, active: set<Id>, now: Time, picks: seq<nat>) {
    forall i :: 0 <= i < |table| && Due(table[i], active, now) ==> i in picks
  }

  predicate OldestFirst(table: seq<Delivery>, active: set<Id>, now: Time, picks: seq<nat>) {
    forall a, i :: 0 <= a < |picks| && picks[a] < |table| && 0 <= i < |table| && Due(table[i], active, now) && i !in picks ==>
      table[picks[a]].nextAt <= table[i].nextAt
  }

  class DeliveryRepo {
    var deliveries: seq<Delivery>
    var active: set<Id>

    constructor ()
      ensures deliveries == [] && active == {}
    {
      deliveries, active := [], {};
    }

    method InsertPending(ds: seq<Delivery>)
      requires TableOk(deliveries) && FreshRows(deliveries, ds)
      modifies this`deliveries
      ensures deliveries == Enqueued(old(deliveries), ds) && TableOk(deliveries)
    {
      EnqueueKeeps(deliveries, ds);
      var table := deliveries;
      for n := 0 to |ds|
        invariant unchanged(this) && table == Enqueued(deliveries, ds[..n])
      {
        assert ds[..n + 1][..n] == ds[..n];
        if !HasPair(table, ds[n].subscription, ds[n].event) {
          table := table + [ds[n]];
        }
      }
      assert ds[..|ds|] == ds;
      deliveries := table;
    }

    // The oldest due row not picked yet.
    method NextDue(now: Time, picks: seq<nat>) returns (best: Option<nat>)
      ensures best.Some? ==>
                && best.value < |deliveries| && Due(deliveries[best.value], active, now) && best.value !in picks
                && forall i :: 0 <= i < |deliveries| && Due(deliveries[i], active, now) && i !in picks ==>
                     deliveries[best.value].nextAt <= deliveries[i].nextAt
      ensures best.None? ==> forall i :: 0 <= i < |deliveries| && Due(deliveries[i], active, now) ==> i in picks
    {
      best := None;
      for i := 0 to |deliveries|
        invariant best.Some? ==>
                    && best.value < i && Due(deliveries[best.value], active, now) && best.value !in picks
                    && forall j :: 0 <= j < i && Due(deliveries[j], active, now) && j !in picks ==>
                         deliveries[best.value].nextAt <= deliveries[j].nextAt
        invariant best.None? ==> forall j :: 0 <= j < i && Due(deliveries[j], active, now) ==> j in picks
      {
        if Due(deliveries[i], active, now) && i !in picks {
          if best.None? || deliveries[i].nextAt < deliveries[best.value].nextAt {
            best := Some(i);
          }
        }
      }
    }

    // ORDER BY next_attempt_at LIMIT limit, leased until now + lease.
    method ClaimDue(limit: nat, now: Time, lease: Time) returns (claims: seq<Claim>, ghost picks: seq<nat>)
      modifies this`deliveries
      ensures Claimable(old(deliveries), active, picks, now)
      ensures deliveries == Leased(old(deliveries), Picked(picks), now + lease)
      ensures claims == ClaimsOf(old(deliveries), picks)
      ensures |picks| <= limit
      ensures |picks| < limit ==> AllPicked(old(deliveries), active, now, picks)
      ensures OldestFirst(old(deliveries), active, now, picks)
    {
      var chosen: seq<nat> := [];
      var more := true;
      while |chosen| < limit && more
        invariant unchanged(this) && |chosen| <= limit
        invariant Claimable(deliveries, active, chosen, now)
        invariant !more ==> AllPicked(deliveries, active, now, chosen)
        invariant OldestFirst(deliveries, active, now, chosen)
        decreases limit - |chosen|, more
      {
        var next := NextDue(now, chosen);
        if next.Some? {
          chosen := chosen + [next.value];
        } else {
          more := false;
        }
      }
      claims := seq(|chosen|, n requires 0 <= n < |chosen| reads this requires chosen[n] < |deliveries| =>
                  Claim(deliveries[chosen[n]].id, deliveries[chosen[n]].attempts));
      deliveries := Leased(deliveries, Picked(chosen), now + lease);
      picks := chosen;
    }

    // The row is finished for good as far as claiming goes, and nothing else
    // changes, whatever its status was.
    method MarkDelivered(id: Id)
      modifies this`deliveries
      ensures deliveries == MarkedDelivered(old(deliveries), id)
      ensures TableOk(old(deliveries)) ==> TableOk(deliveries)
      ensures forall i, t :: 0 <= i < |deliveries| && deliveries[i].id == id ==> !Due(deliveries[i], active, t)
      ensures forall i :: 0 <= i < |deliveries| && deliveries[i].id != id ==> deliveries[i] == old(deliveries)[i]
    {
      deliveries := MarkedDelivered(deliveries, id);
    }

    // The row can be claimed again from nextAt on, unless it is dead, and
    // nothing else changes. With the attempt counts a worker passes, the
    // status rules survive, whatever the status was.
    method MarkFailed(id: Id, attempts: int, nextAt: Time, dead: bool)
      modifies this`deliveries
      ensures deliveries == MarkedFailed(old(deliveries), id, attempts, nextAt, dead)
      ensures TableOk(old(deliveries)) && 1 <= attempts <= 5 && (dead <==> attempts == 5) ==> TableOk(deliveries)
      ensures forall i, t :: 0 <= i < |deliveries| && deliveries[i].id == id ==>
                (Due(deliveries[i], active, t) <==> !dead && nextAt <= t && deliveries[i].subscription in active)
      ensures forall i :: 0 <= i < |deliveries| && deliveries[i].id != id ==> deliveries[i] == old(deliveries)[i]
    {
      deliveries := MarkedFailed(deliveries, id, attempts, nextAt, dead);
    }

    method Requeue(id: Id, now: Time) returns (r: Result<Delivery, RetryFault>)
      requires TableOk(deliveries)
      modifies this`deliveries
      ensures deliveries == Requeued(old(deliveries), id, now) && TableOk(deliveries)
      ensures r.Success? ==> r.value in deliveries && r.value.id == id && r.value.status == Pending && r.value.attempts == 0
      ensures r.Success? ==> r.value.nextAt == now
      ensures r.Success? <==> exists i :: 0 <= i < |old(deliveries)| && old(deliveries)[i].id == id
                                          && old(deliveries)[i].status in {Failed, Dead}
      ensures r.Failure? ==> deliveries == old(deliveries)
      ensures r == Failure(UnknownDelivery) <==> !HasRow(old(deliveries), id)
    {
      RequeueKeeps(deliveries, id, now);
      for i := 0 to |deliveries|
        invariant unchanged(this)
        invariant forall j :: 0 <= j < i ==> deliveries[j].id != id
      {
        if deliveries[i].id == id {
          var d := deliveries[i];
          if d.status == Failed || d.status == Dead {
            deliveries := Requeued(deliveries, id, now);
            assert deliveries[i] == d.(status := Pending, attempts := 0, nextAt := now);
            return Success(deliveries[i]);
          }
          assert Requeued(deliveries, id, now) == deliveries;
          return Failure(NotRetryable(d.status));
        }
      }
      assert Requeued(deliveries, id, now) == deliveries;
      return Failure(UnknownDelivery);
    }

    // One delivery attempt whose outcome is known.
    method Process(c: Claim, success: bool, now: Time)
      modifies this`deliveries
      ensures deliveries == Finished(old(deliveries), c, success, now)
      ensures forall i :: 0 <= i < |deliveries| && deliveries[i].id == c.id ==>
                deliveries[i].status == if success then Delivered else if c.attempts >= 4 then Dead else Failed
      ensures forall i :: 0 <= i < |deliveries| && deliveries[i].id == c.id && !success && c.attempts < 4 ==>
                deliveries[i].attempts == c.attempts + 1 && deliveries[i].nextAt == now + BackoffOf(c.attempts + 1)
    {
      if success {
        MarkDelivered(c.id);
        return;
      }
      var attempts := c.attempts + 1;
      var dead := IsDead(attempts);
      var next := now;
      if !dead {
        var wait := Backoff(attempts);
        next := next + wait;
      }
      MarkFailed(c.id, attempts, next, dead);
    }

    // Works off the claimed rows; outcome says how each endpoint answers.
    method ProcessAll(claims: seq<Claim>, ghost picks: seq<nat>, outcome: Id -> bool, now: Time)
      requires UniqueRows(deliveries)
      requires forall n :: 0 <= n < |picks| ==> picks[n] < |deliveries|
      requires forall a, b :: 0 <= a < b < |picks| ==> picks[a] != picks[b]
      requires claims == ClaimsOf(deliveries, picks)
      modifies this`deliveries
      ensures deliveries == Worked(old(deliveries), Picked(picks), outcome, now)
    {
      ghost var table := deliveries;
      assert Worked(table, Picked(picks[..0]), outcome, now) == table;
      for n := 0 to |claims|
        invariant deliveries == Worked(table, Picked(picks[..n]), outcome, now)
      {
        OneAttempt(table, picks, n, outcome, now);
        Process(claims[n], outcome(claims[n].id), now);
      }
      assert picks[..|claims|] == picks;
    }

    // One batch: claims what is due and works it off before anything else is
    // claimed.
    method Round(batchSize: nat, now: Time, lease: Time, outcome: Id -> bool) returns (claimed: nat, ghost rows: set<nat>)
      requires UniqueRows(deliveries)
      modifies this`deliveries
      ensures rows <= DueRows(old(deliveries), active, now)
      ensures deliveries == Worked(Leased(old(deliveries), rows, now + lease), rows, outcome, now)
      ensures claimed > 0 <==> rows != {}
      ensures claimed < batchSize ==> rows == DueRows(old(deliveries), active, now)
    {
      ghost var table := deliveries;
      var claims, picks := ClaimDue(batchSize, now, lease);
      PicksDue(table, active, now, picks);
      ClaimsLeased(table, picks, Picked(picks), now + lease);
      claimed, rows := |claims|, Picked(picks);
      ProcessAll(claims, picks, outcome, now);
    }

    // Drains everything due at now, batch by batch: every due row is
    // attempted exactly once, and afterwards nothing is due.
    method Tick(batchSize: nat, now: Time, lease: Time, outcome: Id -> bool)
      requires UniqueRows(deliveries) && batchSize > 0
      modifies this`deliveries
      ensures deliveries == Swept(old(deliveries), DueRows(old(deliveries), active, now), outcome, now, now + lease)
      ensures DueRows(deliveries, active, now) == {}
      ensures TableOk(old(deliveries)) ==> TableOk(deliveries)
    {
      ghost var start := deliveries;
      ghost var done: set<nat> := {};
      var more := true;
      assert Swept(start, {}, outcome, now, now + lease) == start;
      while more
        invariant active == old(active) && done <= DueRows(start, active, now)
        invariant deliveries == Swept(start, done, outcome, now, now + lease)
        invariant !more ==> done == DueRows(start, active, now)
        decreases DueRows(start, active, now) - done, more
      {
        SweptUnique(start, done, active, outcome, now, now + lease);
        var claimed, rows := Round(batchSize, now, lease, outcome);
        SweptMore(start, done, rows, outcome, now, now + lease);
        done := done + rows;
        if claimed == 0 || claimed < batchSize {
          more := false;
        }
      }
      SweptUnique(start, done, active, outcome, now, now + lease);
      if TableOk(start) {
        SweptOk(start, done, active, outcome, now, now + lease);
      }
    }
  }

  // A claimed row after its attempt.
  function Attempted(d: Delivery, success: bool, now: Time): Delivery {
    if success then d.(status := Delivered)
    else if IsDead(d.attempts + 1) then d.(status := Dead, attempts := d.attempts + 1, nextAt := now)
    else d.(status := Failed, attempts := d.attempts + 1, nextAt := now + BackoffOf(d.attempts + 1))
  }

  function Worked(table: seq<Delivery>, rows: set<nat>, outcome: Id -> bool, now: Time): seq<Delivery> {
    seq(|table|, i requires 0 <= i < |table| =>
      if i in rows then Attempted(table[i], outcome(table[i].id), now) else table[i])
  }

  // The table after one leased attempt of each of some rows.
  function Swept(table: seq<Delivery>, done: set<nat>, outcome: Id -> bool, now: Time, until: Time): seq<Delivery> {
    seq(|table|, i requires 0 <= i < |table| =>
      if i in done then Attempted(table[i].(nextAt := until), outcome(table[i].id), now) else table[i])
  }

  function DueRows(table: seq<Delivery>, active: set<Id>, now: Time): set<nat> {
    set i: nat | i < |table| && Due(table[i], active, now)
  }

  lemma AttemptedNotDue(d: Delivery, success: bool, active: set<Id>, now: Time)
    ensures !Due(Attempted(d, success, now), active, now)
    ensures RowOk(d) && (d.status == Pending || d.status == Failed) ==> RowOk(Attempted(d, success, now))
  {
    BackoffGrows(d.attempts + 1, d.attempts + 1);
  }

  lemma OneAttempt(table: seq<Delivery>, picks: seq<nat>, n: nat, outcome: Id -> bool, now: Time)
    requires UniqueRows(table) && n < |picks|
    requires forall m :: 0 <= m < |picks| ==> picks[m] < |table|
    requires forall a, b :: 0 <= a < b < |picks| ==> picks[a] != picks[b]
    ensures var c := ClaimsOf(table, picks)[n];
            Finished(Worked(table, Picked(picks[..n]), outcome, now), c, outcome(c.id), now)
            == Worked(table, Picked(picks[..n + 1]), outcome, now)
  {
    var c := ClaimsOf(table, picks)[n];
    var before, after := Worked(table, Picked(picks[..n]), outcome, now), Worked(table, Picked(picks[..n + 1]), outcome, now);
    assert picks[..n + 1] == picks[..n] + [picks[n]];
    assert Picked(picks[..n + 1]) == Picked(picks[..n]) + {picks[n]};
    assert c == Claim(table[picks[n]].id, table[picks[n]].attempts);
    forall i | 0 <= i < |table|
      ensures Finished(before, c, outcome(c.id), now)[i] == after[i]
    {
      WorkedAt(table, Picked(picks[..n]), i, outcome, now);
      if i == picks[n] {
        assert i !in picks[..n];
      } else {
        DistinctRows(table, i, picks[n]);
      }
    }
  }

  lemma WorkedAt(table: seq<Delivery>, rows: set<nat>, i: nat, outcome: Id -> bool, now: Time)
    requires i < |table|
    ensures |Worked(table, rows, outcome, now)| == |table|
    ensures Worked(table, rows, outcome, now)[i].id == table[i].id
    ensures i !in rows ==> Worked(table, rows, outcome, now)[i] == table[i]
  {
    var success := outcome(table[i].id);
    assert Attempted(table[i], success, now).id == table[i].id;
  }

  lemma ClaimsLeased(table: seq<Delivery>, picks: seq<nat>, rows: set<nat>, until: Time)
    requires forall n :: 0 <= n < |picks| ==> picks[n] < |table|
    ensures |Leased(table, rows, until)| == |table|
    ensures ClaimsOf(Leased(table, rows, until), picks) == ClaimsOf(table, picks)
    ensures UniqueRows(table) ==> UniqueRows(Leased(table, rows, until))
  {
  }

  lemma SweptUnique(start: seq<Delivery>, done: set<nat>, active: set<Id>, outcome: Id -> bool, now: Time, until: Time)
    requires UniqueRows(start) && done <= DueRows(start, active, now)
    ensures var table := Swept(start, done, outcome, now, until);
            UniqueRows(table) && DueRows(table, active, now) == DueRows(start, active, now) - done
  {
    var table := Swept(start, done, outcome, now, until);
    forall i: nat | i < |start|
      ensures table[i].id == start[i].id
      ensures Due(table[i], active, now) <==> Due(start[i], active, now) && i !in done
    {
      AttemptedNotDue(start[i].(nextAt := until), outcome(start[i].id), active, now);
    }
  }

  lemma SweptOk(start: seq<Delivery>, done: set<nat>, active: set<Id>, outcome: Id -> bool, now: Time, until: Time)
    requires TableOk(start) && done <= DueRows(start, active, now)
    ensures TableOk(Swept(start, done, outcome, now, until))
  {
    var table := Swept(start, done, outcome, now, until);
    SweptUnique(start, done, active, outcome, now, until);
    forall i: nat | i < |start|
      ensures RowOk(table[i])
      ensures table[i].subscription == start[i].subscription && table[i].event == start[i].event
    {
      assert RowOk(start[i]);
      AttemptedNotDue(start[i].(nextAt := until), outcome(start[i].id), active, now);
    }
  }

  lemma PicksDue(table: seq<Delivery>, active: set<Id>, now: Time, picks: seq<nat>)
    requires Claimable(table, active, picks, now)
    ensures Picked(picks) <= DueRows(table, active, now)
    ensures AllPicked(table, active, now, picks) ==> Picked(picks) == DueRows(table, active, now)
    ensures picks == [] <==> Picked(picks) == {}
  {
    forall i: nat | i in picks
      ensures i in DueRows(table, active, now)
    {
      var n :| 0 <= n < |picks| && picks[n] == i;
    }
    if picks != [] {
      assert picks[0] in Picked(picks);
    }
  }

  lemma SweptMore(start: seq<Delivery>, done: set<nat>, more: set<nat>, outcome: Id -> bool, now: Time, until: Time)
    requires done !! more
    ensures Worked(Leased(Swept(start, done, outcome, now, until), more, until), more, outcome, now)
         == Swept(start, done + more, outcome, now, until)
  {
  }
}
