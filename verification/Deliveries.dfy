// The webhook delivery machine: services/webhooks/internal/adapters/
// postgres/repo.go:321-487, services/webhooks/internal/dispatcher/
// dispatcher.go:80-147 and services/webhooks/internal/domain/domain.go:165-204.
module Deliveries {
  import opened Wrappers
  import opened Domain

  // ---- Retry policy ----------------------------------------------------------

  const MAX_ATTEMPTS: int := 5

  // Microseconds.
  const MINUTE: Time := 60_000_000

  const BACKOFF_SCHEDULE: seq<Time> := [1 * MINUTE, 5 * MINUTE, 30 * MINUTE, 120 * MINUTE, 720 * MINUTE]

  predicate IsDead(attempts: int) {
    attempts >= MAX_ATTEMPTS
  }

  // Clamped to the schedule, so that waits never shrink as attempts grow.
  method Backoff(attempts: int) returns (wait: Time)
    ensures wait == BackoffOf(attempts)
  {
    var n := attempts;
    if n < 1 {
      n := 1;
    }
    if n > |BACKOFF_SCHEDULE| {
      n := |BACKOFF_SCHEDULE|;
    }
    wait := BACKOFF_SCHEDULE[n - 1];
  }

  function BackoffOf(attempts: int): Time {
    BACKOFF_SCHEDULE[if attempts < 1 then 0 else if attempts > 5 then 4 else attempts - 1]
  }

  lemma BackoffGrows(a: int, b: int)
    requires a <= b
    ensures MINUTE <= BackoffOf(a) <= BackoffOf(b) <= 720 * MINUTE
  {
  }

  // One minute, then five, thirty, two hours and twelve hours.
  lemma BackoffExact(attempts: int)
    ensures BackoffOf(attempts) / MINUTE
         == if attempts <= 1 then 1 else if attempts == 2 then 5 else if attempts == 3 then 30
            else if attempts == 4 then 2 * 60 else 12 * 60
    ensures BackoffOf(attempts) % MINUTE == 0
  {
  }

  // ---- The table -----------------------------------------------------------------

  datatype Status = Pending | Delivered | Failed | Dead

  datatype Delivery = Delivery(id: Id, subscription: Id, event: Id, status: Status, attempts: int, nextAt: Time)

  datatype Claim = Claim(id: Id, attempts: int)

  predicate HasPair(table: seq<Delivery>, subscription: Id, event: Id) {
    exists i :: 0 <= i < |table| && table[i].subscription == subscription && table[i].event == event
  }

  // INSERT ... ON CONFLICT (subscription_id, event_id) DO NOTHING.
  function Enqueued(table: seq<Delivery>, ds: seq<Delivery>): seq<Delivery> {
    if ds == [] then table
    else
      var before := Enqueued(table, ds[..|ds| - 1]);
      var d := ds[|ds| - 1];
      if HasPair(before, d.subscription, d.event) then before else before + [d]
  }

  predicate Due(d: Delivery, active: set<Id>, now: Time) {
    (d.status == Pending || d.status == Failed) && d.nextAt <= now && d.subscription in active
  }

  function Leased(table: seq<Delivery>, picks: set<nat>, until: Time): seq<Delivery> {
    seq(|table|, i requires 0 <= i < |table| => if i in picks then table[i].(nextAt := until) else table[i])
  }

  function MarkedDelivered(table: seq<Delivery>, id: Id): seq<Delivery> {
    seq(|table|, i requires 0 <= i < |table| => if table[i].id == id then table[i].(status := Delivered) else table[i])
  }

  // No guard on the current status.
  function MarkedFailed(table: seq<Delivery>, id: Id, attempts: int, nextAt: Time, dead: bool): seq<Delivery> {
    seq(|table|, i requires 0 <= i < |table| =>
      if table[i].id == id
      then table[i].(status := if dead then Dead else Failed, attempts := attempts, nextAt := nextAt)
      else table[i])
  }

  function Requeued(table: seq<Delivery>, id: Id, now: Time): seq<Delivery> {
    seq(|table|, i requires 0 <= i < |table| =>
      if table[i].id == id && (table[i].status == Failed || table[i].status == Dead)
      then table[i].(status := Pending, attempts := 0, nextAt := now)
      else table[i])
  }

  // The outcome of one attempt.
  function Finished(table: seq<Delivery>, c: Claim, success: bool, now: Time): seq<Delivery> {
    if success then MarkedDelivered(table, c.id)
    else
      var attempts := c.attempts + 1;
      MarkedFailed(table, c.id, attempts, if IsDead(attempts) then now else now + BackoffOf(attempts), IsDead(attempts))
  }

  // Row i after the outcome of an attempt with c.attempts attempts before it
  // was recorded: delivered, or failed and due again after the wait for that
  // many failures, or dead after the fifth. All other rows stay.
  lemma FinishExact(table: seq<Delivery>, c: Claim, success: bool, now: Time, i: nat)
    requires i < |table|
    ensures |Finished(table, c, success, now)| == |table|
    ensures var d, after := table[i], Finished(table, c, success, now)[i];
            if d.id != c.id then after == d
            else if success then after == d.(status := Delivered)
            else if c.attempts + 1 >= 5 then after == d.(status := Dead, attempts := c.attempts + 1, nextAt := now)
            else
              && after == d.(status := Failed, attempts := c.attempts + 1, nextAt := after.nextAt)
              && after.nextAt == now + (if c.attempts <= 0 then 1 else if c.attempts == 1 then 5 else if c.attempts == 2 then 30
                                        else 2 * 60) * 60_000_000
  {
  }

  // A leased row is claimed by nobody else until the lease runs out, and is
  // due again then; the other rows stay.
  lemma LeaseExact(table: seq<Delivery>, picks: set<nat>, until: Time, active: set<Id>, now: Time, i: nat, t: Time)
    requires i < |table|
    ensures |Leased(table, picks, until)| == |table|
    ensures i !in picks ==> Leased(table, picks, until)[i] == table[i]
    ensures i in picks && Due(table[i], active, now) ==> (Due(Leased(table, picks, until)[i], active, t) <==> until <= t)
  {
  }

  // A manual retry makes a failed or dead row due at once, with no attempts,
  // and touches no other.
  lemma RequeueExact(table: seq<Delivery>, id: Id, now: Time, i: nat)
    requires i < |table|
    ensures |Requeued(table, id, now)| == |table|
    ensures Requeued(table, id, now)[i]
         == if table[i].id == id && (table[i].status == Failed || table[i].status == Dead)
            then table[i].(status := Pending, attempts := 0, nextAt := now) else table[i]
  {
  }

  // ---- Any number of workers -----------------------------------------------------------

  // inflight: claims taken whose outcome has not been recorded. A claim stays
  // in flight when its lease runs out.
  datatype Machine = Machine(table: seq<Delivery>, active: set<Id>, inflight: seq<Claim>)

  datatype Move =
    | Enqueue(rows: seq<Delivery>)
    | ClaimDue(picks: seq<nat>, now: Time, until: Time)
    | Finish(claim: nat, success: bool, now: Time)
    | Crash(claim: nat)
    | Retry(id: Id, now: Time)
    | Switch(subscription: Id, on: bool)

  // New rows come from the fan-out: pending, no attempts, an id of their own.
  predicate FreshRows(table: seq<Delivery>, ds: seq<Delivery>) {
    && (forall i :: 0 <= i < |ds| ==> ds[i].status == Pending && ds[i].attempts == 0)
    && (forall i, j :: 0 <= i < j < |ds| ==> ds[i].id != ds[j].id)
    && (forall i, j :: 0 <= i < |ds| && 0 <= j < |table| ==> ds[i].id != table[j].id)
  }

  predicate Claimable(table: seq<Delivery>, active: set<Id>, picks: seq<nat>, now: Time) {
    && (forall n :: 0 <= n < |picks| ==> picks[n] < |table| && Due(table[picks[n]], active, now))
    && (forall a, b :: 0 <= a < b < |picks| ==> picks[a] != picks[b])
  }

  function ClaimsOf(table: seq<Delivery>, picks: seq<nat>): seq<Claim>
    requires forall n :: 0 <= n < |picks| ==> picks[n] < |table|
  {
    seq(|picks|, n requires 0 <= n < |picks| => Claim(table[picks[n]].id, table[picks[n]].attempts))
  }

  function Picked(picks: seq<nat>): set<nat> {
    set n | n in picks
  }

  function Without(claims: seq<Claim>, n: nat): seq<Claim>
    requires n < |claims|
  {
    claims[..n] + claims[n + 1..]
  }

  function Claimed(m: Machine, picks: seq<nat>, now: Time, until: Time): Machine {
    if Claimable(m.table, m.active, picks, now)
    then m.(table := Leased(m.table, Picked(picks), until), inflight := m.inflight + ClaimsOf(m.table, picks))
    else m
  }

  function Added(m: Machine, rows: seq<Delivery>): Machine {
    if FreshRows(m.table, rows) then m.(table := Enqueued(m.table, rows)) else m
  }

  function Recorded(m: Machine, n: nat, success: bool, now: Time): Machine {
    if n < |m.inflight|
    then m.(table := Finished(m.table, m.inflight[n], success, now), inflight := Without(m.inflight, n))
    else m
  }

  function Lost(m: Machine, n: nat): Machine {
    if n < |m.inflight| then m.(inflight := Without(m.inflight, n)) else m
  }

  function Retried(m: Machine, id: Id, now: Time): Machine {
    m.(table := Requeued(m.table, id, now))
  }

  function Apply(m: Machine, v: Move): Machine {
    match v
    case Enqueue(rows) => Added(m, rows)
    case ClaimDue(picks, now, until) => Claimed(m, picks, now, until)
    case Finish(n, success, now) => Recorded(m, n, success, now)
    case Crash(n) => Lost(m, n)
    case Retry(id, now) => Retried(m, id, now)
    case Switch(subscription, on) =>
      m.(active := if on then m.active + {subscription} else m.active - {subscription})
  }

  // A worker that dies loses its claim and nothing else: the row comes due
  // again when the lease runs out, and not before.
  lemma CrashRecovers(m: Machine, picks: seq<nat>, now: Time, until: Time, n: nat, t: Time)
    requires Claimable(m.table, m.active, picks, now) && n < |picks|
    ensures var claimed := Apply(m, ClaimDue(picks, now, until));
            var lost := |m.inflight| + n;
            var crashed := Apply(claimed, Crash(lost));
            && |claimed.inflight| == |m.inflight| + |picks| && claimed.inflight[lost].id == m.table[picks[n]].id
            && crashed.inflight == claimed.inflight[..lost] + claimed.inflight[lost + 1..]
            && |crashed.table| == |m.table|
            && (Due(crashed.table[picks[n]], crashed.active, t) <==> until <= t)
  {
    LeasedAt(m, picks, now, until, n, t);
    LostAt(Apply(m, ClaimDue(picks, now, until)), |m.inflight| + n);
  }

  lemma LeasedAt(m: Machine, picks: seq<nat>, now: Time, until: Time, n: nat, t: Time)
    requires Claimable(m.table, m.active, picks, now) && n < |picks|
    ensures var claimed := Apply(m, ClaimDue(picks, now, until));
            && |claimed.inflight| == |m.inflight| + |picks|
            && claimed.inflight[|m.inflight| + n].id == m.table[picks[n]].id
            && |claimed.table| == |m.table| && claimed.active == m.active
            && (Due(claimed.table[picks[n]], m.active, t) <==> until <= t)
  {
    assert picks[n] in Picked(picks);
    LeaseExact(m.table, Picked(picks), until, m.active, now, picks[n], t);
  }

  lemma LostAt(m: Machine, n: nat)
    requires n < |m.inflight|
    ensures Apply(m, Crash(n)) == m.(inflight := m.inflight[..n] + m.inflight[n + 1..])
  {
  }

  // Switching a subscription off takes its rows out of every later claim,
  // switching it on puts the open ones back; other rows do not notice.
  lemma {:induction false} SwitchExact(m: Machine, subscription: Id, on: bool, i: nat, t: Time)
    requires i < |m.table|
    ensures var s := Apply(m, Switch(subscription, on));
            var d := m.table[i];
            && s.table == m.table && s.inflight == m.inflight
            && (Due(d, s.active, t) <==>
                  && (if d.subscription == subscription then on else d.subscription in m.active)
                  && d.nextAt <= t && d.status != Delivered && d.status != Dead)
  {
  }

  function Run(m: Machine, vs: seq<Move>): Machine {
    if vs == [] then m else Apply(Run(m, vs[..|vs| - 1]), vs[|vs| - 1])
  }

  const EMPTY := Machine([], {}, [])

  // ---- What every interleaving keeps -------------------------------------------------------

  predicate RowOk(d: Delivery) {
    match d.status
    case Pending => d.attempts == 0
    case Failed => 1 <= d.attempts <= 4
    case Dead => d.attempts == 5
    case Delivered => 0 <= d.attempts <= 5
  }

  ghost predicate UniqueRows(table: seq<Delivery>) {
    forall i, j :: 0 <= i < j < |table| ==> table[i].id != table[j].id
  }

  ghost predicate TableOk(table: seq<Delivery>) {
    && (forall i :: 0 <= i < |table| ==> RowOk(table[i]))
    && UniqueRows(table)
    && (forall i, j :: 0 <= i < j < |table| ==> table[i].subscription != table[j].subscription || table[i].event != table[j].event)
  }

  ghost predicate ClaimsOk(claims: seq<Claim>) {
    forall n :: 0 <= n < |claims| ==> 0 <= claims[n].attempts <= 4
  }

  ghost predicate MachineOk(m: Machine) {
    TableOk(m.table) && ClaimsOk(m.inflight)
  }

  // Enqueueing leaves every existing row as it was, and one row per pair.
  lemma {:induction false} EnqueueKeeps(table: seq<Delivery>, ds: seq<Delivery>)
    requires TableOk(table) && FreshRows(table, ds)
    ensures table <= Enqueued(table, ds) && TableOk(Enqueued(table, ds))
    ensures forall d :: d in Enqueued(table, ds) ==> d in table || d in ds
    ensures forall d :: d in ds ==> HasPair(Enqueued(table, ds), d.subscription, d.event)
  {
    if ds != [] {
      var init, last := ds[..|ds| - 1], ds[|ds| - 1];
      EnqueueKeeps(table, init);
      assert ds == init + [last];
      var before, after := Enqueued(table, init), Enqueued(table, ds);
      forall i | 0 <= i < |before|
        ensures before[i].id != last.id
      {
        assert before[i] in before;
      }
      forall d | d in ds
        ensures HasPair(after, d.subscription, d.event)
      {
        if d in init {
          PairStays(before, after, d.subscription, d.event);
        } else if !HasPair(before, last.subscription, last.event) {
          assert after[|before|] == last;
        }
      }
    }
  }

  lemma PairStays(before: seq<Delivery>, after: seq<Delivery>, subscription: Id, event: Id)
    requires before <= after && HasPair(before, subscription, event)
    ensures HasPair(after, subscription, event)
  {
    var i :| 0 <= i < |before| && before[i].subscription == subscription && before[i].event == event;
    assert after[i] == before[i];
  }

  // Re-enqueueing an event that has its row changes nothing.
  lemma {:induction false} ReEnqueue(table: seq<Delivery>, ds: seq<Delivery>)
    requires forall d :: d in ds ==> HasPair(table, d.subscription, d.event)
    ensures Enqueued(table, ds) == table
  {
    if ds != [] {
      assert forall d :: d in ds[..|ds| - 1] ==> d in ds;
      ReEnqueue(table, ds[..|ds| - 1]);
      assert ds[|ds| - 1] in ds;
    }
  }

  lemma LeaseKeeps(table: seq<Delivery>, picks: set<nat>, until: Time)
    requires TableOk(table)
    ensures TableOk(Leased(table, picks, until))
  {
  }

  lemma FinishKeeps(table: seq<Delivery>, c: Claim, success: bool, now: Time)
    requires TableOk(table) && 0 <= c.attempts <= 4
    ensures TableOk(Finished(table, c, success, now))
  {
  }

  lemma RequeueKeeps(table: seq<Delivery>, id: Id, now: Time)
    requires TableOk(table)
    ensures TableOk(Requeued(table, id, now))
  {
  }

  lemma ClaimsFresh(m: Machine, picks: seq<nat>, now: Time)
    requires MachineOk(m) && Claimable(m.table, m.active, picks, now)
    ensures ClaimsOk(ClaimsOf(m.table, picks))
  {
    forall n | 0 <= n < |picks|
      ensures 0 <= m.table[picks[n]].attempts <= 4
    {
      assert RowOk(m.table[picks[n]]);
    }
  }

  lemma WithoutAt(claims: seq<Claim>, n: nat, a: nat)
    requires n < |claims| && a < |claims| - 1
    ensures Without(claims, n)[a] == claims[if a < n then a else a + 1]
  {
  }

  lemma WithoutOk(claims: seq<Claim>, n: nat)
    requires ClaimsOk(claims) && n < |claims|
    ensures ClaimsOk(Without(claims, n))
  {
    forall a | 0 <= a < |claims| - 1
      ensures Without(claims, n)[a] == claims[if a < n then a else a + 1]
    {
      WithoutAt(claims, n, a);
    }
  }

  lemma MoveKeeps(m: Machine, v: Move)
    requires MachineOk(m)
    ensures MachineOk(Apply(m, v))
  {
    match v
    case Enqueue(rows) =>
      if FreshRows(m.table, rows) {
        EnqueueKeeps(m.table, rows);
      }
    case ClaimDue(picks, now, until) =>
      if Claimable(m.table, m.active, picks, now) {
        LeaseKeeps(m.table, Picked(picks), until);
        ClaimsFresh(m, picks, now);
      }
    case Finish(n, success, now) =>
      if n < |m.inflight| {
        FinishKeeps(m.table, m.inflight[n], success, now);
        WithoutOk(m.inflight, n);
      }
    case Crash(n) =>
      if n < |m.inflight| {
        WithoutOk(m.inflight, n);
      }
    case Retry(id, now) => RequeueKeeps(m.table, id, now);
    case Switch(_, _) =>
  }

  // pending: no attempts; failed: one to four; dead: exactly five; one row
  // per subscription and event. For any number of workers, expired leases,
  // crashes and manual retries.
  lemma {:induction false} RunKeeps(vs: seq<Move>)
    ensures MachineOk(Run(EMPTY, vs))
  {
    if vs != [] {
      RunKeeps(vs[..|vs| - 1]);
      MoveKeeps(Run(EMPTY, vs[..|vs| - 1]), vs[|vs| - 1]);
    }
  }

  // ---- One dispatcher ----------------------------------------------------------------------

  // The dispatcher waits for its batch before it claims the next one.
  predicate Awaits(m: Machine, v: Move) {
    v.ClaimDue? ==> m.inflight == []
  }

  ghost predicate Awaiting(m: Machine, vs: seq<Move>) {
    forall n :: 0 <= n < |vs| ==> Awaits(Run(m, vs[..n]), vs[n])
  }

  predicate HasRow(table: seq<Delivery>, id: Id) {
    exists i :: 0 <= i < |table| && table[i].id == id
  }

  predicate Undecided(d: Delivery) {
    d.status == Pending || d.status == Failed
  }

  // The row with this id exists and is still undecided.
  predicate Open(table: seq<Delivery>, id: Id) {
    table != [] &&
    if table[|table| - 1].id == id then Undecided(table[|table| - 1]) else Open(table[..|table| - 1], id)
  }

  lemma {:induction false} OpenRow(table: seq<Delivery>, i: nat)
    requires UniqueRows(table) && i < |table|
    ensures Open(table, table[i].id) <==> Undecided(table[i])
  {
    var last := |table| - 1;
    if i < last {
      OpenRow(table[..last], i);
      assert table[i].id != table[last].id;
    }
  }

  // Changes to other rows do not matter.
  lemma {:induction false} OpenStays(table: seq<Delivery>, after: seq<Delivery>, id: Id)
    requires Open(table, id) && |table| <= |after|
    requires forall i :: 0 <= i < |table| ==> after[i].id == table[i].id
    requires forall i :: 0 <= i < |table| && table[i].id == id && Undecided(table[i]) ==> Undecided(after[i])
    requires forall i :: |table| <= i < |after| ==> after[i].id != id
    ensures Open(after, id)
    decreases |after|
  {
    var last := |after| - 1;
    if |table| < |after| {
      OpenStays(table, after[..last], id);
    } else if table[last].id != id {
      OpenStays(table[..last], after[..last], id);
    }
  }

  lemma {:induction false} OpenExists(table: seq<Delivery>, id: Id) returns (i: nat)
    requires Open(table, id)
    ensures i < |table| && table[i].id == id
  {
    i := |table| - 1;
    if table[i].id != id {
      i := OpenExists(table[..i], id);
    }
  }

  predicate Taken(claims: seq<Claim>, id: Id) {
    exists n :: 0 <= n < |claims| && claims[n].id == id
  }

  // A claim on a row that is not open, or claimed before, if there is one.
  function Misfit(table: seq<Delivery>, claims: seq<Claim>): Option<Claim> {
    if claims == [] then None
    else
      var init, last := claims[..|claims| - 1], claims[|claims| - 1];
      if Misfit(table, init).Some? then Misfit(table, init)
      else if Taken(init, last.id) || !Open(table, last.id) then Some(last)
      else None
  }

  // Rows in flight are distinct and still undecided.
  ghost predicate BatchOk(m: Machine) {
    Misfit(m.table, m.inflight) == None
  }

  lemma {:induction false} ClaimsAt(table: seq<Delivery>, claims: seq<Claim>, a: nat)
    requires Misfit(table, claims) == None && a < |claims|
    ensures Open(table, claims[a].id)
    ensures forall b :: 0 <= b < |claims| && b != a ==> claims[b].id != claims[a].id
  {
    var last := |claims| - 1;
    if a < last {
      ClaimsAt(table, claims[..last], a);
      forall b | 0 <= b < |claims| && b != a
        ensures claims[b].id != claims[a].id
      {
        if b < last {
          assert claims[..last][b] == claims[b];
        } else {
          assert claims[..last][a].id == claims[a].id;
        }
      }
    } else {
      forall b | 0 <= b < last
        ensures claims[b].id != claims[a].id
      {
        assert claims[..last][b] == claims[b];
      }
    }
  }

  lemma {:induction false} ClaimsFrom(table: seq<Delivery>, claims: seq<Claim>)
    requires forall a :: 0 <= a < |claims| ==> Open(table, claims[a].id)
    requires forall a, b :: 0 <= a < b < |claims| ==> claims[a].id != claims[b].id
    ensures Misfit(table, claims) == None
  {
    if claims != [] {
      ClaimsFrom(table, claims[..|claims| - 1]);
    }
  }

  // Whatever keeps every claimed row open keeps the batch.
  lemma {:induction false} ClaimsStay(table: seq<Delivery>, after: seq<Delivery>, claims: seq<Claim>)
    requires Misfit(table, claims) == None
    requires forall a :: 0 <= a < |claims| ==> Open(after, claims[a].id)
    ensures Misfit(after, claims) == None
  {
    if claims != [] {
      ClaimsStay(table, after, claims[..|claims| - 1]);
    }
  }

  lemma DistinctRows(table: seq<Delivery>, i: nat, j: nat)
    requires UniqueRows(table) && i < |table| && j < |table| && i != j
    ensures table[i].id != table[j].id
  {
  }

  lemma PickedOpen(table: seq<Delivery>, active: set<Id>, picks: seq<nat>, now: Time, until: Time)
    requires UniqueRows(table) && Claimable(table, active, picks, now)
    ensures Misfit(Leased(table, Picked(picks), until), ClaimsOf(table, picks)) == None
  {
    var leased, claims := Leased(table, Picked(picks), until), ClaimsOf(table, picks);
    forall n | 0 <= n < |claims|
      ensures Open(leased, claims[n].id)
    {
      OpenRow(table, picks[n]);
      OpenStays(table, leased, table[picks[n]].id);
    }
    forall a, b | 0 <= a < b < |claims|
      ensures claims[a].id != claims[b].id
    {
      DistinctRows(table, picks[a], picks[b]);
    }
    ClaimsFrom(leased, claims);
  }

  lemma ClaimTaken(table: seq<Delivery>, active: set<Id>, picks: seq<nat>, now: Time, until: Time)
    requires UniqueRows(table) && Claimable(table, active, picks, now)
    ensures BatchOk(Claimed(Machine(table, active, []), picks, now, until))
  {
    PickedOpen(table, active, picks, now, until);
    assert [] + ClaimsOf(table, picks) == ClaimsOf(table, picks);
  }

  lemma ClaimBatch(m: Machine, picks: seq<nat>, now: Time, until: Time)
    requires UniqueRows(m.table) && m.inflight == []
    ensures BatchOk(Claimed(m, picks, now, until))
  {
    if Claimable(m.table, m.active, picks, now) {
      ClaimTaken(m.table, m.active, picks, now, until);
      assert m == Machine(m.table, m.active, []);
    }
  }

  lemma FinishBatch(m: Machine, n: nat, success: bool, now: Time)
    requires BatchOk(m) && n < |m.inflight|
    ensures BatchOk(Recorded(m, n, success, now))
  {
    var after := Recorded(m, n, success, now);
    forall a | 0 <= a < |after.inflight|
      ensures after.inflight[a] == m.inflight[if a < n then a else a + 1]
      ensures Open(after.table, after.inflight[a].id)
      ensures forall b :: a < b < |after.inflight| ==> after.inflight[a].id != after.inflight[b].id
    {
      var c := if a < n then a else a + 1;
      WithoutAt(m.inflight, n, a);
      ClaimsAt(m.table, m.inflight, c);
      OpenStays(m.table, after.table, after.inflight[a].id);
      forall b | a < b < |after.inflight|
        ensures after.inflight[a].id != after.inflight[b].id
      {
        WithoutAt(m.inflight, n, b);
      }
    }
    ClaimsFrom(after.table, after.inflight);
  }

  lemma EnqueueBatch(m: Machine, ds: seq<Delivery>)
    requires MachineOk(m) && BatchOk(m) && FreshRows(m.table, ds)
    ensures BatchOk(m.(table := Enqueued(m.table, ds)))
  {
    var after := Enqueued(m.table, ds);
    EnqueueKeeps(m.table, ds);
    forall n | 0 <= n < |m.inflight|
      ensures Open(after, m.inflight[n].id)
    {
      ClaimsAt(m.table, m.inflight, n);
      var i := OpenExists(m.table, m.inflight[n].id);
      assert after[i] == m.table[i];
      forall j | |m.table| <= j < |after|
        ensures after[j].id != m.inflight[n].id
      {
        DistinctRows(after, i, j);
      }
      OpenStays(m.table, after, m.inflight[n].id);
    }
    ClaimsStay(m.table, after, m.inflight);
  }

  lemma RetryBatch(m: Machine, id: Id, now: Time)
    requires BatchOk(m)
    ensures BatchOk(Retried(m, id, now))
  {
    var after := Requeued(m.table, id, now);
    forall n | 0 <= n < |m.inflight|
      ensures Open(after, m.inflight[n].id)
    {
      ClaimsAt(m.table, m.inflight, n);
      OpenStays(m.table, after, m.inflight[n].id);
    }
    ClaimsStay(m.table, after, m.inflight);
  }

  lemma CrashBatch(m: Machine, n: nat)
    requires BatchOk(m) && n < |m.inflight|
    ensures BatchOk(Lost(m, n))
  {
    var claims := Without(m.inflight, n);
    forall a | 0 <= a < |claims|
      ensures Open(m.table, claims[a].id)
      ensures forall b :: a < b < |claims| ==> claims[a].id != claims[b].id
    {
      WithoutAt(m.inflight, n, a);
      ClaimsAt(m.table, m.inflight, if a < n then a else a + 1);
      forall b | a < b < |claims|
        ensures claims[a].id != claims[b].id
      {
        WithoutAt(m.inflight, n, b);
      }
    }
    ClaimsFrom(m.table, claims);
  }

  lemma BatchKeeps(m: Machine, v: Move)
    requires MachineOk(m) && BatchOk(m) && Awaits(m, v)
    ensures BatchOk(Apply(m, v))
  {
    match v
    case Enqueue(rows) =>
      if FreshRows(m.table, rows) {
        EnqueueBatch(m, rows);
      }
    case ClaimDue(picks, now, until) => ClaimBatch(m, picks, now, until);
    case Finish(n, success, now) =>
      if n < |m.inflight| {
        FinishBatch(m, n, success, now);
      }
    case Crash(n) =>
      if n < |m.inflight| {
        CrashBatch(m, n);
      }
    case Retry(id, now) => RetryBatch(m, id, now);
    case Switch(_, _) =>
  }

  // A delivered row does not change again.
  lemma DeliveredStays(m: Machine, v: Move, i: nat)
    requires MachineOk(m) && BatchOk(m) && Awaits(m, v)
    requires i < |m.table| && m.table[i].status == Delivered
    ensures i < |Apply(m, v).table| && Apply(m, v).table[i] == m.table[i]
  {
    OpenRow(m.table, i);
    match v
    case Enqueue(rows) =>
      if FreshRows(m.table, rows) {
        EnqueueKeeps(m.table, rows);
      }
    case Finish(n, success, now) =>
      if n < |m.inflight| {
        ClaimsAt(m.table, m.inflight, n);
        assert m.inflight[n].id != m.table[i].id;
      }
    case _ =>
  }

  // With one dispatcher, delivered is final.
  lemma {:induction false} DeliveredFinal(m: Machine, vs: seq<Move>, i: nat)
    requires MachineOk(m) && BatchOk(m) && Awaiting(m, vs)
    requires i < |m.table| && m.table[i].status == Delivered
    ensures MachineOk(Run(m, vs)) && BatchOk(Run(m, vs))
    ensures i < |Run(m, vs).table| && Run(m, vs).table[i] == m.table[i]
  {
    if vs != [] {
      var init := vs[..|vs| - 1];
      forall n | 0 <= n < |init|
        ensures Awaits(Run(m, init[..n]), init[n])
      {
        assert init[..n] == vs[..n];
      }
      DeliveredFinal(m, init, i);
      MoveKeeps(Run(m, init), vs[|vs| - 1]);
      BatchKeeps(Run(m, init), vs[|vs| - 1]);
      DeliveredStays(Run(m, init), vs[|vs| - 1], i);
    }
  }

  // In general it is not: a delivered row loses its status if and only if an
  // outstanding claim on it is recorded as failed, however old the claim.
  lemma DeliveredLost(m: Machine, v: Move, i: nat)
    requires MachineOk(m) && i < |m.table| && m.table[i].status == Delivered
    ensures i < |Apply(m, v).table| && Apply(m, v).table[i].id == m.table[i].id
    ensures Apply(m, v).table[i].status != Delivered <==>
              v.Finish? && !v.success && v.claim < |m.inflight| && m.inflight[v.claim].id == m.table[i].id
  {
    match v
    case Enqueue(rows) =>
      if FreshRows(m.table, rows) {
        EnqueueKeeps(m.table, rows);
      }
    case _ =>
  }

  // It happens: one row, two claims on it, because the first worker's lease
  // runs out while it waits for the endpoint; the second worker delivers,
  // then the first records a failure.
  lemma {:induction false} TwoWorkers(d: Delivery, expiry: Time)
    requires d.status == Pending && d.attempts == 0 && d.nextAt <= expiry
    ensures var claimed := Run(EMPTY, [Switch(d.subscription, true), Enqueue([d]),
                                       ClaimDue([0], d.nextAt, expiry), ClaimDue([0], expiry, expiry)]);
            var delivered := Apply(claimed, Finish(1, true, expiry));
            var overwritten := Apply(delivered, Finish(0, false, expiry));
            && |delivered.table| == |overwritten.table| == 1
            && delivered.table[0].status == Delivered
            && overwritten.table[0].status == Failed
  {
    TakenTwice(d, expiry);
    LateFailure(d.(nextAt := expiry), {d.subscription}, expiry);
  }

  lemma {:induction false} TakenTwice(d: Delivery, expiry: Time)
    requires d.status == Pending && d.attempts == 0 && d.nextAt <= expiry
    ensures Run(EMPTY, [Switch(d.subscription, true), Enqueue([d]), ClaimDue([0], d.nextAt, expiry), ClaimDue([0], expiry, expiry)])
         == Machine([d.(nextAt := expiry)], {d.subscription}, [Claim(d.id, 0), Claim(d.id, 0)])
  {
    var on := SwitchOn(d.subscription);
    var one := on.(table := [d]);
    var two := Machine([d.(nextAt := expiry)], on.active, [Claim(d.id, 0)]);
    AddOne(on, d);
    ClaimedTwice(one, two, d, expiry);
    RunFour(EMPTY, Switch(d.subscription, true), on, Enqueue([d]), one, ClaimDue([0], d.nextAt, expiry), two,
            ClaimDue([0], expiry, expiry), two.(inflight := [Claim(d.id, 0), Claim(d.id, 0)]));
  }

  lemma ClaimedTwice(one: Machine, two: Machine, d: Delivery, expiry: Time)
    requires d.status == Pending && d.attempts == 0 && d.nextAt <= expiry
    requires one == Machine([d], {d.subscription}, [])
    requires two == Machine([d.(nextAt := expiry)], {d.subscription}, [Claim(d.id, 0)])
    ensures Apply(one, ClaimDue([0], d.nextAt, expiry)) == two
    ensures Apply(two, ClaimDue([0], expiry, expiry)) == two.(inflight := [Claim(d.id, 0), Claim(d.id, 0)])
  {
    var c := Claim(d.id, 0);
    ClaimOne(one, expiry);
    ClaimOne(two, expiry);
    assert [] + [c] == [c] && [c] + [c] == [c, c];
  }

  lemma SwitchOn(subscription: Id) returns (on: Machine)
    ensures on == Machine([], {subscription}, [])
    ensures Apply(EMPTY, Switch(subscription, true)) == on
  {
    on := Machine([], {subscription}, []);
    assert {} + {subscription} == {subscription};
  }

  lemma RunFour(m: Machine, a: Move, m1: Machine, b: Move, m2: Machine, c: Move, m3: Machine, d: Move, m4: Machine)
    requires Apply(m, a) == m1 && Apply(m1, b) == m2 && Apply(m2, c) == m3 && Apply(m3, d) == m4
    ensures Run(m, [a, b, c, d]) == m4
  {
    assert [a, b, c, d] == [a, b, c] + [d] && [a, b, c] == [a, b] + [c] && [a, b] == [a] + [b] && [a] == [] + [a];
    RunSnoc(m, [a, b, c], d);
    RunSnoc(m, [a, b], c);
    RunSnoc(m, [a], b);
    RunSnoc(m, [], a);
  }

  lemma RunSnoc(m: Machine, vs: seq<Move>, v: Move)
    ensures Run(m, vs + [v]) == Apply(Run(m, vs), v)
  {
    assert (vs + [v])[..|vs|] == vs;
  }

  lemma AddOne(m: Machine, d: Delivery)
    requires m.table == [] && d.status == Pending && d.attempts == 0
    ensures Apply(m, Enqueue([d])) == m.(table := [d])
  {
    EnqueueOne(d);
  }

  lemma LateFailure(d: Delivery, active: set<Id>, now: Time)
    requires d.attempts == 0
    ensures var c := Claim(d.id, 0);
            var delivered := Apply(Machine([d], active, [c, c]), Finish(1, true, now));
            var overwritten := Apply(delivered, Finish(0, false, now));
            && |delivered.table| == |overwritten.table| == 1
            && delivered.table[0].status == Delivered && overwritten.table[0].status == Failed
  {
    var c := Claim(d.id, 0);
    assert Without([c, c], 1) == [c];
  }

  lemma EnqueueOne(d: Delivery)
    requires d.status == Pending && d.attempts == 0
    ensures FreshRows([], [d]) && Enqueued([], [d]) == [d]
  {
    assert [d][..0] == [];
  }

  lemma ClaimOne(m: Machine, until: Time)
    requires |m.table| == 1 && Due(m.table[0], m.active, m.table[0].nextAt)
    ensures var d := m.table[0];
            Apply(m, ClaimDue([0], d.nextAt, until))
            == Machine([d.(nextAt := until)], m.active, m.inflight + [Claim(d.id, d.attempts)])
  {
    var d := m.table[0];
    assert Claimable(m.table, m.active, [0], d.nextAt);
    assert ClaimsOf(m.table, [0]) == [Claim(d.id, d.attempts)];
  }
}
