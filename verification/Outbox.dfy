// The transactional outbox drains: the ledger's poller
// (services/ledger-core/internal/adapters/outbox/poller.go:70-138) and the
// reconciliation service's (services/reconciliation/internal/adapters/
// postgres/store.go:67-127).
module Outboxes {
  import opened Wrappers

  // A row in id order; an envelope that does not unmarshal is None.
  datatype OutboxRow<E> = OutboxRow(envelope: Option<E>, published: bool)

  const BATCH_SIZE: nat := 100

  // ---- Selecting a batch ---------------------------------------------------------

  // FOR UPDATE SKIP LOCKED passes over the rows other drains have locked.
  predicate Selectable<E>(rows: seq<OutboxRow<E>>, locked: set<nat>, i: nat) {
    i < |rows| && !rows[i].published && i !in locked
  }

  predicate InRange<E>(rows: seq<OutboxRow<E>>, ids: seq<nat>) {
    forall n :: 0 <= n < |ids| ==> ids[n] < |rows|
  }

  function Selected<E>(rows: seq<OutboxRow<E>>, locked: set<nat>, n: nat): (r: seq<nat>)
    requires n <= |rows|
    ensures InRange(rows, r)
  {
    if n == 0 then []
    else Selected(rows, locked, n - 1) + if Selectable(rows, locked, n - 1) then [n - 1] else []
  }

  // WHERE published_at IS NULL ORDER BY id LIMIT limit.
  function Batch<E>(rows: seq<OutboxRow<E>>, locked: set<nat>, limit: nat): (r: seq<nat>)
    ensures InRange(rows, r)
  {
    var all := Selected(rows, locked, |rows|);
    if |all| <= limit then all else all[..limit]
  }

  predicate Increasing(ids: seq<nat>) {
    forall i, j :: 0 <= i < j < |ids| ==> ids[i] < ids[j]
  }

  lemma {:induction false} SelectedMember<E>(rows: seq<OutboxRow<E>>, locked: set<nat>, n: nat, i: nat)
    requires n <= |rows|
    ensures i in Selected(rows, locked, n) <==> i < n && Selectable(rows, locked, i)
  {
    if n > 0 {
      SelectedMember(rows, locked, n - 1, i);
    }
  }

  lemma {:induction false} SelectedIncreasing<E>(rows: seq<OutboxRow<E>>, locked: set<nat>, n: nat)
    requires n <= |rows|
    ensures Increasing(Selected(rows, locked, n))
  {
    if n > 0 {
      var r := Selected(rows, locked, n - 1);
      SelectedIncreasing(rows, locked, n - 1);
      forall m | 0 <= m < |r|
        ensures r[m] < n - 1
      {
        SelectedMember(rows, locked, n - 1, r[m]);
      }
    }
  }

  lemma SelectedExact<E>(rows: seq<OutboxRow<E>>, locked: set<nat>, n: nat)
    requires n <= |rows|
    ensures Increasing(Selected(rows, locked, n))
    ensures forall i: nat :: i in Selected(rows, locked, n) <==> i < n && Selectable(rows, locked, i)
  {
    SelectedIncreasing(rows, locked, n);
    forall i: nat
      ensures i in Selected(rows, locked, n) <==> i < n && Selectable(rows, locked, i)
    {
      SelectedMember(rows, locked, n, i);
    }
  }

  // The batch is the longest allowed run of the oldest selectable rows.
  lemma BatchExact<E>(rows: seq<OutboxRow<E>>, locked: set<nat>, limit: nat)
    ensures var batch := Batch(rows, locked, limit);
            && Increasing(batch) && |batch| <= limit
            && (forall i: nat :: i in batch ==> Selectable(rows, locked, i))
            && (forall i: nat, j: nat :: Selectable(rows, locked, i) && i !in batch && j in batch ==> j < i)
            && (|batch| < limit ==> forall i: nat :: Selectable(rows, locked, i) ==> i in batch)
  {
    var all := Selected(rows, locked, |rows|);
    SelectedExact(rows, locked, |rows|);
    var batch := Batch(rows, locked, limit);
    forall i: nat, j: nat | Selectable(rows, locked, i) && i !in batch && j in batch
      ensures j < i
    {
      var a :| 0 <= a < |all| && all[a] == i;
      var b :| 0 <= b < |batch| && batch[b] == j;
      assert all[b] == j && b < a;
    }
  }

  // Two drains that overlap never publish the same row, and neither takes one
  // that is done.
  lemma BatchesApart<E>(rows: seq<OutboxRow<E>>, locked: set<nat>, limit: nat, i: nat)
    requires i in Batch(rows, locked, limit)
    ensures i !in locked && i < |rows| && !rows[i].published
    ensures forall others: set<nat>, n: nat :: i in others ==> i !in Batch(rows, others, n)
  {
    BatchExact(rows, locked, limit);
    assert Selectable(rows, locked, i);
    forall others: set<nat>, n: nat | i in others
      ensures i !in Batch(rows, others, n)
    {
      BatchExact(rows, others, n);
      assert !Selectable(rows, others, i);
    }
  }

  // ---- What a batch does --------------------------------------------------------------

  // The broker refuses the envelope of row i.
  predicate Refused<E>(rows: seq<OutboxRow<E>>, accepts: set<nat>, i: nat)
    requires i < |rows|
  {
    rows[i].envelope.Some? && i !in accepts
  }

  // Where the first broker failure stops the batch.
  function Cut<E>(rows: seq<OutboxRow<E>>, batch: seq<nat>, accepts: set<nat>): (n: nat)
    requires InRange(rows, batch)
    ensures n <= |batch|
    ensures forall j :: 0 <= j < n ==> !Refused(rows, accepts, batch[j])
    ensures n < |batch| ==> Refused(rows, accepts, batch[n])
  {
    if batch == [] || Refused(rows, accepts, batch[0]) then 0 else 1 + Cut(rows, batch[1..], accepts)
  }

  lemma CutUnique<E>(rows: seq<OutboxRow<E>>, batch: seq<nat>, accepts: set<nat>, n: nat)
    requires InRange(rows, batch) && n <= |batch|
    requires forall j :: 0 <= j < n ==> !Refused(rows, accepts, batch[j])
    requires n < |batch| ==> Refused(rows, accepts, batch[n])
    ensures Cut(rows, batch, accepts) == n
  {
  }

  lemma CutBeyond<E>(rows: seq<OutboxRow<E>>, batch: seq<nat>, accepts: set<nat>, n: nat)
    requires InRange(rows, batch) && n < |batch|
    requires forall j :: 0 <= j <= n ==> !Refused(rows, accepts, batch[j])
    ensures n < Cut(rows, batch, accepts)
  {
  }

  predicate AllSome<E>(rows: seq<OutboxRow<E>>, ids: seq<nat>)
    requires InRange(rows, ids)
  {
    forall n :: 0 <= n < |ids| ==> rows[ids[n]].envelope.Some?
  }

  function WellFormed<E>(rows: seq<OutboxRow<E>>, ids: seq<nat>): (r: seq<nat>)
    requires InRange(rows, ids)
    ensures InRange(rows, r) && AllSome(rows, r)
  {
    if ids == [] then []
    else WellFormed(rows, ids[..|ids| - 1]) + if rows[ids[|ids| - 1]].envelope.Some? then [ids[|ids| - 1]] else []
  }

  function Envelopes<E>(rows: seq<OutboxRow<E>>, ids: seq<nat>): seq<E>
    requires InRange(rows, ids) && AllSome(rows, ids)
  {
    seq(|ids|, n requires 0 <= n < |ids| => rows[ids[n]].envelope.value)
  }

  function Marked<E>(rows: seq<OutboxRow<E>>, ids: seq<nat>): seq<OutboxRow<E>> {
    seq(|rows|, i requires 0 <= i < |rows| => if i in ids then rows[i].(published := true) else rows[i])
  }

  // The rows a drain publishes.
  function Sent<E>(rows: seq<OutboxRow<E>>, locked: set<nat>, limit: nat, accepts: set<nat>): (r: seq<nat>)
    ensures InRange(rows, r) && AllSome(rows, r)
  {
    var batch := Batch(rows, locked, limit);
    WellFormed(rows, batch[..Cut(rows, batch, accepts)])
  }

  // The rows the reconciliation drain is done with: poison rows as well.
  function Settled<E>(rows: seq<OutboxRow<E>>, locked: set<nat>, limit: nat, accepts: set<nat>): (r: seq<nat>)
    ensures InRange(rows, r)
  {
    var batch := Batch(rows, locked, limit);
    batch[..Cut(rows, batch, accepts)]
  }

  lemma {:induction false} WellFormedExact<E>(rows: seq<OutboxRow<E>>, ids: seq<nat>, i: nat)
    requires InRange(rows, ids)
    ensures i in WellFormed(rows, ids) <==> i in ids && i < |rows| && rows[i].envelope.Some?
  {
    if ids != [] {
      WellFormedExact(rows, ids[..|ids| - 1], i);
      assert ids == ids[..|ids| - 1] + [ids[|ids| - 1]];
    }
  }

  lemma {:induction false} WellFormedIncreasing<E>(rows: seq<OutboxRow<E>>, ids: seq<nat>)
    requires InRange(rows, ids) && Increasing(ids)
    ensures Increasing(WellFormed(rows, ids))
  {
    if ids != [] {
      var last := |ids| - 1;
      var r := WellFormed(rows, ids[..last]);
      WellFormedIncreasing(rows, ids[..last]);
      forall n | 0 <= n < |r|
        ensures r[n] < ids[last]
      {
        WellFormedExact(rows, ids[..last], r[n]);
        assert r[n] in r;
        var m :| 0 <= m < last && ids[m] == r[n];
      }
    }
  }

  lemma {:induction false} SentMember<E>(rows: seq<OutboxRow<E>>, batch: seq<nat>, accepts: set<nat>, i: nat)
    requires InRange(rows, batch) && Increasing(batch)
    requires i in WellFormed(rows, batch[..Cut(rows, batch, accepts)])
    ensures i in batch && i < |rows| && i in accepts && rows[i].envelope.Some?
    ensures forall n :: 0 <= n < |batch| && Refused(rows, accepts, batch[n]) ==> i < batch[n]
  {
    var cut := Cut(rows, batch, accepts);
    WellFormedExact(rows, batch[..cut], i);
    var a :| 0 <= a < cut && batch[..cut][a] == i;
    assert batch[a] == i && !Refused(rows, accepts, batch[a]);
  }

  lemma UnsentMember<E>(rows: seq<OutboxRow<E>>, batch: seq<nat>, accepts: set<nat>, i: nat) returns (n: nat)
    requires InRange(rows, batch) && Increasing(batch)
    requires i in batch && i < |rows| && rows[i].envelope.Some?
    requires i !in WellFormed(rows, batch[..Cut(rows, batch, accepts)])
    ensures n < |batch| && batch[n] <= i && Refused(rows, accepts, batch[n])
  {
    n := Cut(rows, batch, accepts);
    WellFormedExact(rows, batch[..n], i);
    LaterThan(batch, n, i);
  }

  // What is not in a prefix comes at or after its end.
  lemma LaterThan(ids: seq<nat>, n: nat, i: nat)
    requires Increasing(ids) && n <= |ids| && i in ids && i !in ids[..n]
    ensures n < |ids| && ids[n] <= i
  {
    assert ids == ids[..n] + ids[n..];
    var a :| 0 <= a < |ids| - n && ids[n..][a] == i;
  }

  // Rows go out oldest first, each once, with no gap: exactly the well-formed
  // rows of the batch that no refusal precedes.
  lemma SentInOrder<E>(rows: seq<OutboxRow<E>>, locked: set<nat>, limit: nat, accepts: set<nat>)
    ensures var batch, sent := Batch(rows, locked, limit), Sent(rows, locked, limit, accepts);
            && Increasing(sent)
            && forall i: nat :: i in sent <==>
                 && i in batch && i < |rows| && rows[i].envelope.Some?
                 && forall n :: 0 <= n < |batch| && rows[batch[n]].envelope.Some? && batch[n] !in accepts ==> i < batch[n]
  {
    BatchExact(rows, locked, limit);
    var batch := Batch(rows, locked, limit);
    WellFormedIncreasing(rows, batch[..Cut(rows, batch, accepts)]);
    forall i: nat
      ensures i in Sent(rows, locked, limit, accepts) <==>
              && i in batch && i < |rows| && rows[i].envelope.Some?
              && forall n :: 0 <= n < |batch| && Refused(rows, accepts, batch[n]) ==> i < batch[n]
    {
      if i in Sent(rows, locked, limit, accepts) {
        SentMember(rows, batch, accepts, i);
      } else if i in batch && i < |rows| && rows[i].envelope.Some? {
        var n := UnsentMember(rows, batch, accepts, i);
      }
    }
  }

  // Every row marked published was published, or is poison and could not be.
  ghost predicate MarksHonest<E>(rows: seq<OutboxRow<E>>, broker: seq<E>) {
    forall i :: 0 <= i < |rows| && rows[i].published && rows[i].envelope.Some? ==> rows[i].envelope.value in broker
  }

  // ... and only well-formed rows are marked.
  ghost predicate MarksWellFormed<E>(rows: seq<OutboxRow<E>>) {
    forall i :: 0 <= i < |rows| && rows[i].published ==> rows[i].envelope.Some?
  }

  lemma HonestGrows<E>(rows: seq<OutboxRow<E>>, broker: seq<E>, more: seq<E>)
    requires MarksHonest(rows, broker)
    ensures MarksHonest(rows, broker + more)
  {
  }

  lemma HonestMark<E>(rows: seq<OutboxRow<E>>, broker: seq<E>, ids: seq<nat>)
    requires MarksHonest(rows, broker)
    requires forall i: nat :: i in ids && i < |rows| && rows[i].envelope.Some? ==> rows[i].envelope.value in broker
    ensures MarksHonest(Marked(rows, ids), broker)
  {
  }

  lemma SentPublished<E>(rows: seq<OutboxRow<E>>, ids: seq<nat>, i: nat)
    requires InRange(rows, ids) && i in ids && i < |rows| && rows[i].envelope.Some?
    ensures rows[i].envelope.value in Envelopes(rows, WellFormed(rows, ids))
  {
    WellFormedExact(rows, ids, i);
    var sent := WellFormed(rows, ids);
    var m :| 0 <= m < |sent| && sent[m] == i;
    assert Envelopes(rows, sent)[m] == rows[i].envelope.value;
  }

  lemma MarkedHonest<E>(rows: seq<OutboxRow<E>>, broker: seq<E>, ids: seq<nat>)
    requires MarksHonest(rows, broker) && InRange(rows, ids)
    ensures var sent := WellFormed(rows, ids);
            && MarksHonest(rows, broker + Envelopes(rows, sent))
            && MarksHonest(Marked(rows, ids), broker + Envelopes(rows, sent))
            && MarksHonest(Marked(rows, sent), broker + Envelopes(rows, sent))
            && (MarksWellFormed(rows) ==> MarksWellFormed(Marked(rows, sent)))
  {
    var sent := WellFormed(rows, ids);
    var after := broker + Envelopes(rows, sent);
    HonestGrows(rows, broker, Envelopes(rows, sent));
    forall i: nat | i in ids && i < |rows| && rows[i].envelope.Some?
      ensures rows[i].envelope.value in after
    {
      SentPublished(rows, ids, i);
    }
    HonestMark(rows, after, ids);
    forall i: nat | i in sent
      ensures i in ids && i < |rows| && rows[i].envelope.Some?
    {
      WellFormedExact(rows, ids, i);
    }
    HonestMark(rows, after, sent);
  }

  lemma EnvelopesSnoc<E>(rows: seq<OutboxRow<E>>, ids: seq<nat>, i: nat)
    requires InRange(rows, ids) && AllSome(rows, ids) && i < |rows| && rows[i].envelope.Some?
    ensures Envelopes(rows, ids + [i]) == Envelopes(rows, ids) + [rows[i].envelope.value]
  {
  }

  lemma MarkedSnoc<E>(rows: seq<OutboxRow<E>>, ids: seq<nat>, i: nat)
    requires i < |rows|
    ensures Marked(rows, ids + [i]) == Marked(rows, ids)[i := Marked(rows, ids)[i].(published := true)]
  {
  }

  lemma WellFormedNext<E>(rows: seq<OutboxRow<E>>, ids: seq<nat>, n: nat)
    requires InRange(rows, ids) && n < |ids|
    ensures WellFormed(rows, ids[..n + 1])
         == if rows[ids[n]].envelope.Some? then WellFormed(rows, ids[..n]) + [ids[n]] else WellFormed(rows, ids[..n])
  {
    assert ids[..n + 1][..n] == ids[..n];
    assert WellFormed(rows, ids[..n]) + [] == WellFormed(rows, ids[..n]);
  }

  // What the first n rows of a batch send.
  function Out<E>(rows: seq<OutboxRow<E>>, batch: seq<nat>, n: nat): seq<E>
    requires InRange(rows, batch) && n <= |batch|
  {
    Envelopes(rows, WellFormed(rows, batch[..n]))
  }

  lemma OutNext<E>(rows: seq<OutboxRow<E>>, batch: seq<nat>, n: nat, before: seq<E>)
    requires InRange(rows, batch) && n < |batch|
    ensures before + Out(rows, batch, n + 1)
         == if rows[batch[n]].envelope.Some? then before + Out(rows, batch, n) + [rows[batch[n]].envelope.value]
            else before + Out(rows, batch, n)
  {
    WellFormedNext(rows, batch, n);
    if rows[batch[n]].envelope.Some? {
      EnvelopesSnoc(rows, WellFormed(rows, batch[..n]), batch[n]);
    }
  }

  lemma MarkedNext<E>(rows: seq<OutboxRow<E>>, batch: seq<nat>, n: nat)
    requires InRange(rows, batch) && n < |batch|
    ensures var table := Marked(rows, batch[..n]);
            Marked(rows, batch[..n + 1]) == table[batch[n] := table[batch[n]].(published := true)]
  {
    MarkedSnoc(rows, batch[..n], batch[n]);
    assert batch[..n + 1] == batch[..n] + [batch[n]];
  }

  // The updates of the first n rows of a batch succeed.
  predicate MarksAll(batch: seq<nat>, marks: set<nat>, n: nat)
    requires n <= |batch|
  {
    forall j :: 0 <= j < n ==> batch[j] in marks
  }

  predicate NoneRefused<E>(rows: seq<OutboxRow<E>>, batch: seq<nat>, accepts: set<nat>, n: nat)
    requires InRange(rows, batch) && n <= |batch|
  {
    forall j :: 0 <= j < n ==> !Refused(rows, accepts, batch[j])
  }

  lemma OneRowMore<E>(rows: seq<OutboxRow<E>>, batch: seq<nat>, accepts: set<nat>, marks: set<nat>, n: nat)
    requires InRange(rows, batch) && n < |batch| && NoneRefused(rows, batch, accepts, n) && MarksAll(batch, marks, n)
    ensures !Refused(rows, accepts, batch[n]) ==> NoneRefused(rows, batch, accepts, n + 1)
    ensures batch[n] in marks ==> MarksAll(batch, marks, n + 1)
  {
  }

  // ---- The poller of the ledger ------------------------------------------------------------

  class LedgerOutbox<E(==)> {
    var rows: seq<OutboxRow<E>>
    var broker: seq<E>

    constructor ()
      ensures rows == [] && broker == [] && Valid()
    {
      rows, broker := [], [];
    }

    // Every row marked published was published.
    ghost predicate Valid()
      reads this
    {
      MarksHonest(rows, broker) && MarksWellFormed(rows)
    }

    // One tick. The update that marks the rows may fail, or the commit after
    // it; either way nothing is marked, and what was published stays so. A
    // failed commit still reports the count.
    method DrainOnce(locked: set<nat>, accepts: set<nat>, marks: bool, commits: bool)
      returns (published: nat, failed: bool)
      requires Valid()
      modifies this
      ensures Valid()
      ensures var sent := Sent(old(rows), locked, BATCH_SIZE, accepts);
              && broker == old(broker) + Envelopes(old(rows), sent)
              && rows == (if marks && commits then Marked(old(rows), sent) else old(rows))
              && published == (if marks then |sent| else 0)
      ensures var batch := Batch(old(rows), locked, BATCH_SIZE);
              failed <==> Cut(old(rows), batch, accepts) < |batch| || !commits
                          || (!marks && Sent(old(rows), locked, BATCH_SIZE, accepts) != [])
    {
      var pending := Batch(rows, locked, BATCH_SIZE);
      var done, n := PublishBatch(pending, accepts);
      MarkedHonest(rows, old(broker), pending[..n]);
      published, failed := 0, n < |pending| || !commits;
      if |done| > 0 {
        if !marks {
          failed := true;
        } else {
          published := |done|;
          if commits {
            rows := Marked(rows, done);
          }
        }
      } else {
        assert Marked(rows, done) == rows;
      }
    }

    // Publishes the well-formed rows of the batch, up to the first refusal.
    method PublishBatch(pending: seq<nat>, accepts: set<nat>) returns (done: seq<nat>, n: nat)
      requires InRange(rows, pending)
      modifies this`broker
      ensures n == Cut(rows, pending, accepts) && done == WellFormed(rows, pending[..n])
      ensures broker == old(broker) + Out(rows, pending, n)
    {
      done, n := [], 0;
      var failed := false;
      while n < |pending| && !failed
        invariant n <= |pending|
        invariant NoneRefused(rows, pending, accepts, n)
        invariant failed ==> n < |pending| && Refused(rows, accepts, pending[n])
        invariant done == WellFormed(rows, pending[..n])
        invariant broker == old(broker) + Out(rows, pending, n)
        decreases |pending| - n, !failed
      {
        var r := pending[n];
        WellFormedNext(rows, pending, n);
        OutNext(rows, pending, n, old(broker));
        if rows[r].envelope.None? {
          n := n + 1;
        } else if r !in accepts {
          failed := true;
        } else {
          broker := broker + [rows[r].envelope.value];
          done := done + [r];
          n := n + 1;
        }
      }
      CutUnique(rows, pending, accepts, n);
    }
  }

  // ---- The poller of the reconciliation service ------------------------------------------------

  class ReconOutbox<E(==)> {
    var rows: seq<OutboxRow<E>>
    var broker: seq<E>

    constructor ()
      ensures rows == [] && broker == [] && Valid()
    {
      rows, broker := [], [];
    }

    // Every row marked published was published or could never be.
    ghost predicate Valid()
      reads this
    {
      MarksHonest(rows, broker)
    }

    // Marks row by row inside one database transaction. An update that fails
    // ends the batch there and undoes the marks, not the publishing.
    method DrainOutbox(locked: set<nat>, limit: nat, accepts: set<nat>, marks: set<nat>, commits: bool)
      returns (published: nat)
      requires Valid()
      modifies this
      ensures Valid()
      ensures var batch := Batch(old(rows), locked, limit);
              var sent := Sent(old(rows), locked, limit, accepts);
              var settled := Settled(old(rows), locked, limit, accepts);
              MarksAll(batch, marks, Cut(old(rows), batch, accepts)) ==>
                && broker == old(broker) + Envelopes(old(rows), sent)
                && rows == (if commits then Marked(old(rows), settled) else old(rows))
                && published == (if commits then |settled| else 0)
      ensures var batch := Batch(old(rows), locked, limit);
              forall n :: 0 <= n < Cut(old(rows), batch, accepts) && MarksAll(batch, marks, n) && batch[n] !in marks ==>
                && broker == old(broker) + Out(old(rows), batch, n + 1)
                && rows == old(rows) && published == 0
    {
      var batch := Batch(rows, locked, limit);
      var table, n, ok := SettleBatch(batch, accepts, marks);
      if ok {
        CutUnique(rows, batch, accepts, n);
      } else {
        CutBeyond(rows, batch, accepts, n);
      }
      MarkedHonest(rows, old(broker), batch[..if ok then n else n + 1]);
      published := 0;
      if ok && commits {
        rows := table;
        published := n;
      }
    }

    // One row: publishes it if it is well formed and the broker takes it, and
    // computes its mark.
    method SettleRow(table: seq<OutboxRow<E>>, batch: seq<nat>, n: nat, accepts: set<nat>, ghost before: seq<E>)
      returns (next: seq<OutboxRow<E>>, refused: bool)
      requires InRange(rows, batch) && n < |batch|
      requires table == Marked(rows, batch[..n]) && broker == before + Out(rows, batch, n)
      modifies this`broker
      ensures refused == Refused(rows, accepts, batch[n])
      ensures broker == before + Out(rows, batch, if refused then n else n + 1)
      ensures next == if refused then table else Marked(rows, batch[..n + 1])
    {
      var p := batch[n];
      OutNext(rows, batch, n, before);
      MarkedNext(rows, batch, n);
      if rows[p].envelope.Some? {
        if p !in accepts {
          return table, true;
        }
        broker := broker + [rows[p].envelope.value];
      }
      next, refused := table[p := table[p].(published := true)], false;
    }

    // Publishes or gives up on each row of the batch, up to the first refusal
    // or failing update.
    method SettleBatch(batch: seq<nat>, accepts: set<nat>, marks: set<nat>)
      returns (table: seq<OutboxRow<E>>, n: nat, ok: bool)
      requires InRange(rows, batch)
      modifies this`broker
      ensures n <= |batch| && MarksAll(batch, marks, n) && NoneRefused(rows, batch, accepts, n)
      ensures ok ==> (n < |batch| ==> Refused(rows, accepts, batch[n])) && table == Marked(rows, batch[..n])
      ensures !ok ==> n < |batch| && !Refused(rows, accepts, batch[n]) && batch[n] !in marks
      ensures broker == old(broker) + Out(rows, batch, if ok then n else n + 1)
    {
      table, n, ok := rows, 0, true;
      var refused := false;
      assert Marked(rows, batch[..0]) == rows;
      while n < |batch| && ok && !refused
        invariant n <= |batch| && MarksAll(batch, marks, n) && NoneRefused(rows, batch, accepts, n)
        invariant refused ==> ok && n < |batch| && Refused(rows, accepts, batch[n])
        invariant !ok ==> n < |batch| && !Refused(rows, accepts, batch[n]) && batch[n] !in marks
        invariant ok ==> table == Marked(rows, batch[..n])
        invariant broker == old(broker) + Out(rows, batch, if ok then n else n + 1)
        decreases |batch| - n, ok, !refused
      {
        var next;
        OneRowMore(rows, batch, accepts, marks, n);
        next, refused := SettleRow(table, batch, n, accepts, old(broker));
        if !refused {
          ok := batch[n] in marks;
          if ok {
            table, n := next, n + 1;
          }
        }
      }
    }
  }

  // ---- Progress ------------------------------------------------------------------------------------

  // Pending rows that can ever be published.
  function Waiting<E>(rows: seq<OutboxRow<E>>): nat {
    if rows == [] then 0
    else
      var last := rows[|rows| - 1];
      Waiting(rows[..|rows| - 1]) + if !last.published && last.envelope.Some? then 1 else 0
  }

  // Pending rows that cannot.
  function Poisoned<E>(rows: seq<OutboxRow<E>>): nat {
    if rows == [] then 0
    else
      var last := rows[|rows| - 1];
      Poisoned(rows[..|rows| - 1]) + if !last.published && last.envelope.None? then 1 else 0
  }

  lemma {:induction false} MarkOne<E>(rows: seq<OutboxRow<E>>, i: nat)
    requires i < |rows|
    ensures var after := rows[i := rows[i].(published := true)];
            && Waiting(after) == Waiting(rows) - (if !rows[i].published && rows[i].envelope.Some? then 1 else 0)
            && Poisoned(after) == Poisoned(rows) - (if !rows[i].published && rows[i].envelope.None? then 1 else 0)
  {
    var last := |rows| - 1;
    var after := rows[i := rows[i].(published := true)];
    if i == last {
      assert after[..last] == rows[..last];
    } else {
      MarkOne(rows[..last], i);
      assert after[..last] == rows[..last][i := rows[i].(published := true)];
    }
  }

  // Marking distinct pending well-formed rows removes exactly those.
  lemma {:induction false} MarkAll<E>(rows: seq<OutboxRow<E>>, ids: seq<nat>)
    requires InRange(rows, ids) && Increasing(ids) && AllSome(rows, ids)
    requires forall n :: 0 <= n < |ids| ==> !rows[ids[n]].published
    ensures Waiting(Marked(rows, ids)) == Waiting(rows) - |ids|
    ensures Poisoned(Marked(rows, ids)) == Poisoned(rows)
  {
    if ids == [] {
      assert Marked(rows, ids) == rows;
    } else {
      var init, i := ids[..|ids| - 1], ids[|ids| - 1];
      MarkAll(rows, init);
      assert ids == init + [i];
      MarkedSnoc(rows, init, i);
      MarkOne(Marked(rows, init), i);
    }
  }

  function RowIds(n: nat): (r: set<nat>)
    ensures forall i: nat :: i in r <==> i < n
  {
    if n == 0 then {} else RowIds(n - 1) + {n - 1}
  }

  lemma HasMember<T>(s: seq<T>)
    requires s != []
    ensures s[0] in s
  {
  }

  // The rows after one tick of the ledger's poller, alone and with a broker
  // that accepts everything.
  function Tick<E>(rows: seq<OutboxRow<E>>): seq<OutboxRow<E>> {
    Marked(rows, Sent(rows, {}, BATCH_SIZE, RowIds(|rows|)))
  }

  ghost predicate BatchHasWork<E>(rows: seq<OutboxRow<E>>) {
    exists i: nat :: i < |rows| && i in Batch(rows, {}, BATCH_SIZE) && rows[i].envelope.Some?
  }

  // The rows a tick sends are pending, and are the well-formed ones of its
  // batch.
  lemma TickSends<E>(rows: seq<OutboxRow<E>>)
    ensures var sent := Sent(rows, {}, BATCH_SIZE, RowIds(|rows|));
            && Increasing(sent)
            && (forall n :: 0 <= n < |sent| ==> !rows[sent[n]].published)
            && (sent != [] <==> BatchHasWork(rows))
  {
    var all := RowIds(|rows|);
    var sent := Sent(rows, {}, BATCH_SIZE, all);
    BatchExact(rows, {}, BATCH_SIZE);
    SentInOrder(rows, {}, BATCH_SIZE, all);
    forall n | 0 <= n < |sent|
      ensures !rows[sent[n]].published && BatchHasWork(rows)
    {
      assert sent[n] in sent;
      assert Selectable(rows, {}, sent[n]);
    }
    if sent != [] {
      HasMember(sent);
    }
    if BatchHasWork(rows) {
      var i: nat :| i < |rows| && i in Batch(rows, {}, BATCH_SIZE) && rows[i].envelope.Some?;
      assert i in sent;
    }
  }

  // A tick publishes something exactly when one of the hundred oldest
  // pending rows is well formed; otherwise it changes nothing.
  lemma TickProgress<E>(rows: seq<OutboxRow<E>>)
    ensures Poisoned(Tick(rows)) == Poisoned(rows)
    ensures if BatchHasWork(rows) then Waiting(Tick(rows)) < Waiting(rows) else Tick(rows) == rows
  {
    var sent := Sent(rows, {}, BATCH_SIZE, RowIds(|rows|));
    TickSends(rows);
    MarkAll(rows, sent);
    if sent == [] {
      MarkedNothing(rows);
    }
  }

  lemma MarkedNothing<E>(rows: seq<OutboxRow<E>>)
    ensures Marked(rows, []) == rows
  {
  }

  lemma {:induction false} PoisonCount<E>(rows: seq<OutboxRow<E>>, ids: seq<nat>)
    requires InRange(rows, ids) && Increasing(ids)
    requires forall n :: 0 <= n < |ids| ==> !rows[ids[n]].published && rows[ids[n]].envelope.None?
    ensures |ids| <= Poisoned(rows)
  {
    if ids != [] {
      var last := |rows| - 1;
      if ids[|ids| - 1] == last {
        PoisonCount(rows[..last], ids[..|ids| - 1]);
      } else {
        assert forall n :: 0 <= n < |ids| ==> ids[n] <= ids[|ids| - 1];
        PoisonCount(rows[..last], ids);
      }
    }
  }

  lemma {:induction false} SomeWaiting<E>(rows: seq<OutboxRow<E>>) returns (i: nat)
    requires Waiting(rows) > 0
    ensures i < |rows| && !rows[i].published && rows[i].envelope.Some?
  {
    i := |rows| - 1;
    if rows[i].published || rows[i].envelope.None? {
      i := SomeWaiting(rows[..i]);
    }
  }

  // Fewer than a batch of malformed rows cannot wedge the queue.
  lemma FewPoisonedWork<E>(rows: seq<OutboxRow<E>>)
    requires Waiting(rows) > 0 && Poisoned(rows) < BATCH_SIZE
    ensures BatchHasWork(rows)
  {
    var batch := Batch(rows, {}, BATCH_SIZE);
    BatchExact(rows, {}, BATCH_SIZE);
    if !BatchHasWork(rows) {
      forall n | 0 <= n < |batch|
        ensures !rows[batch[n]].published && rows[batch[n]].envelope.None?
      {
        assert batch[n] in batch;
        assert Selectable(rows, {}, batch[n]);
      }
      PoisonCount(rows, batch);
      var i := SomeWaiting(rows);
      assert Selectable(rows, {}, i);
    }
  }

  function Iterate<T>(f: T -> T, x: T, n: nat): T
    decreases n
  {
    if n == 0 then x else Iterate(f, f(x), n - 1)
  }

  // n ticks in a row.
  function Ticks<E>(rows: seq<OutboxRow<E>>, n: nat): seq<OutboxRow<E>> {
    Iterate((r: seq<OutboxRow<E>>) => Tick(r), rows, n)
  }

  lemma TickDrains<E>(rows: seq<OutboxRow<E>>)
    requires Poisoned(rows) < BATCH_SIZE
    ensures Poisoned(Tick(rows)) == Poisoned(rows)
    ensures Waiting(Tick(rows)) <= if Waiting(rows) == 0 then 0 else Waiting(rows) - 1
  {
    TickProgress(rows);
    if Waiting(rows) > 0 {
      FewPoisonedWork(rows);
    }
  }

  lemma {:induction false} IterateDrains<E>(f: seq<OutboxRow<E>> -> seq<OutboxRow<E>>, rows: seq<OutboxRow<E>>, n: nat)
    requires Poisoned(rows) < BATCH_SIZE
    requires forall r :: Poisoned(r) < BATCH_SIZE ==>
               Poisoned(f(r)) == Poisoned(r) && Waiting(f(r)) <= if Waiting(r) == 0 then 0 else Waiting(r) - 1
    ensures Poisoned(Iterate(f, rows, n)) == Poisoned(rows)
    ensures Waiting(Iterate(f, rows, n)) <= if n < Waiting(rows) then Waiting(rows) - n else 0
    decreases n
  {
    if n > 0 {
      IterateDrains(f, f(rows), n - 1);
    }
  }

  // So every well-formed row goes out in the end.
  lemma Drained<E>(rows: seq<OutboxRow<E>>, n: nat)
    requires Poisoned(rows) < BATCH_SIZE
    ensures Poisoned(Ticks(rows, n)) == Poisoned(rows)
    ensures Waiting(Ticks(rows, n)) <= if n < Waiting(rows) then Waiting(rows) - n else 0
  {
    var f := (r: seq<OutboxRow<E>>) => Tick(r);
    forall r: seq<OutboxRow<E>> | Poisoned(r) < BATCH_SIZE
      ensures Poisoned(f(r)) == Poisoned(r) && Waiting(f(r)) <= if Waiting(r) == 0 then 0 else Waiting(r) - 1
    {
      TickDrains(r);
    }
    IterateDrains(f, rows, n);
  }

  lemma {:induction false} IterateFixed<T>(f: T -> T, x: T, n: nat)
    requires f(x) == x
    ensures Iterate(f, x, n) == x
  {
    if n > 0 {
      IterateFixed(f, x, n - 1);
    }
  }

  // While nothing is inserted: with nothing well formed in the batch no number
  // of ticks changes the queue, otherwise the next one does.
  lemma Wedged<E>(rows: seq<OutboxRow<E>>, n: nat)
    ensures !BatchHasWork(rows) ==> Ticks(rows, n) == rows
    ensures BatchHasWork(rows) && n > 0 ==> Ticks(rows, n) != rows
  {
    TickProgress(rows);
    if BatchHasWork(rows) {
      if n > 0 {
        TicksShrink(rows, n);
      }
    } else {
      TicksFixed(rows, n);
    }
  }

  lemma TicksFixed<E>(rows: seq<OutboxRow<E>>, n: nat)
    requires Tick(rows) == rows
    ensures Ticks(rows, n) == rows
  {
    IterateFixed((r: seq<OutboxRow<E>>) => Tick(r), rows, n);
  }

  lemma TicksShrink<E>(rows: seq<OutboxRow<E>>, n: nat)
    requires n > 0
    ensures Waiting(Ticks(rows, n)) <= Waiting(Tick(rows))
  {
    var f := (r: seq<OutboxRow<E>>) => Tick(r);
    forall r: seq<OutboxRow<E>>
      ensures Waiting(f(r)) <= Waiting(r)
    {
      TickProgress(r);
    }
    IterateShrinks(f, rows, n);
  }

  lemma {:induction false} IterateShrinks<E>(f: seq<OutboxRow<E>> -> seq<OutboxRow<E>>, rows: seq<OutboxRow<E>>, n: nat)
    requires n > 0 && forall r :: Waiting(f(r)) <= Waiting(r)
    ensures Waiting(Iterate(f, rows, n)) <= Waiting(f(rows))
    decreases n
  {
    assert Iterate(f, rows, n) == Iterate(f, f(rows), n - 1);
    if n > 1 {
      IterateShrinks(f, f(rows), n - 1);
    }
  }

  // A full batch of malformed rows at the head of the pending ones does it.
  lemma HeadOfPoison<E>(rows: seq<OutboxRow<E>>, i: nat)
    requires i <= |rows| && |Selected(rows, {}, i)| >= BATCH_SIZE
    requires forall j :: 0 <= j < i && !rows[j].published ==> rows[j].envelope.None?
    ensures !BatchHasWork(rows)
  {
    SelectedGrows(rows, {}, i, |rows|);
    var batch := Batch(rows, {}, BATCH_SIZE);
    assert batch == Selected(rows, {}, i)[..BATCH_SIZE];
    forall j: nat | j in batch
      ensures j < |rows| && rows[j].envelope.None?
    {
      SelectedMember(rows, {}, i, j);
    }
  }

  lemma {:induction false} SelectedGrows<E>(rows: seq<OutboxRow<E>>, locked: set<nat>, n: nat, m: nat)
    requires n <= m <= |rows|
    ensures |Selected(rows, locked, n)| <= |Selected(rows, locked, m)|
    ensures Selected(rows, locked, m)[..|Selected(rows, locked, n)|] == Selected(rows, locked, n)
    decreases m
  {
    if n < m {
      SelectedGrows(rows, locked, n, m - 1);
    }
  }

  // The reconciliation drain settles poison rows too: every tick with
  // something pending makes progress, unless the broker refuses its first row.
  lemma ReconProgress<E>(rows: seq<OutboxRow<E>>, limit: nat, accepts: set<nat>)
    ensures var batch := Batch(rows, {}, limit);
            var after := Marked(rows, Settled(rows, {}, limit, accepts));
            if batch != [] && !Refused(rows, accepts, batch[0])
            then Waiting(after) + Poisoned(after) < Waiting(rows) + Poisoned(rows)
            else after == rows
  {
    BatchExact(rows, {}, limit);
    var batch := Batch(rows, {}, limit);
    var settled := Settled(rows, {}, limit, accepts);
    forall n | 0 <= n < |settled|
      ensures !rows[settled[n]].published
    {
      assert batch[n] in batch;
      assert Selectable(rows, {}, batch[n]);
    }
    SettleAll(rows, settled);
    if settled == [] {
      assert Marked(rows, settled) == rows;
    }
  }

  lemma {:induction false} SettleAll<E>(rows: seq<OutboxRow<E>>, ids: seq<nat>)
    requires InRange(rows, ids) && Increasing(ids)
    requires forall n :: 0 <= n < |ids| ==> !rows[ids[n]].published
    ensures Waiting(Marked(rows, ids)) + Poisoned(Marked(rows, ids)) == Waiting(rows) + Poisoned(rows) - |ids|
  {
    if ids == [] {
      assert Marked(rows, ids) == rows;
    } else {
      var init, i := ids[..|ids| - 1], ids[|ids| - 1];
      SettleAll(rows, init);
      assert ids == init + [i];
      MarkedSnoc(rows, init, i);
      MarkOne(Marked(rows, init), i);
    }
  }
}
