// Which rows the ledger's poller ever publishes: the fate of one pending row,
// over any sequence of drains and inserts
// (services/ledger-core/internal/adapters/outbox/poller.go:65-138).
module OutboxFates {
  import opened Wrappers
  import opened Outboxes

  // What happens to the table: a drain by the only poller, with whatever the
  // broker takes, or a row inserted at the end.
  datatype Beat<E> = Drain(accepts: set<nat>, commits: bool) | Insert(row: OutboxRow<E>)

  function AfterDrain<E>(rows: seq<OutboxRow<E>>, accepts: set<nat>, commits: bool): seq<OutboxRow<E>> {
    if commits then Marked(rows, Sent(rows, {}, BATCH_SIZE, accepts)) else rows
  }

  function After<E>(rows: seq<OutboxRow<E>>, b: Beat<E>): seq<OutboxRow<E>> {
    match b
    case Drain(accepts, commits) => AfterDrain(rows, accepts, commits)
    case Insert(row) => rows + [row]
  }

  function AfterAll<E>(rows: seq<OutboxRow<E>>, beats: seq<Beat<E>>): seq<OutboxRow<E>>
    decreases |beats|
  {
    if beats == [] then rows else AfterAll(After(rows, beats[0]), beats[1..])
  }

  // A drain that commits while the broker takes everything.
  predicate Full<E>(rows: seq<OutboxRow<E>>, b: Beat<E>) {
    b.Drain? && b.commits && forall j :: 0 <= j < |rows| ==> j in b.accepts
  }

  function FullDrains<E>(rows: seq<OutboxRow<E>>, beats: seq<Beat<E>>): nat
    decreases |beats|
  {
    if beats == [] then 0
    else (if Full(rows, beats[0]) then 1 else 0) + FullDrains(After(rows, beats[0]), beats[1..])
  }

  predicate Pending<E>(rows: seq<OutboxRow<E>>, i: nat) {
    i < |rows| && !rows[i].published && rows[i].envelope.Some?
  }

  // ---- Marking well-formed rows ------------------------------------------------------

  // after is before with some well-formed rows marked.
  ghost predicate Progressed<E>(before: seq<OutboxRow<E>>, after: seq<OutboxRow<E>>) {
    |before| == |after|
    && forall k :: 0 <= k < |before| ==>
         after[k] == before[k] || (before[k].envelope.Some? && after[k] == before[k].(published := true))
  }

  lemma {:induction false} ProgressCounts<E>(before: seq<OutboxRow<E>>, after: seq<OutboxRow<E>>)
    requires Progressed(before, after)
    ensures Poisoned(after) == Poisoned(before) && Waiting(after) <= Waiting(before)
    ensures (exists k: nat :: Pending(before, k) && !Pending(after, k)) ==> Waiting(after) < Waiting(before)
  {
    if before != [] {
      var last := |before| - 1;
      ProgressCounts(before[..last], after[..last]);
      if k: nat :| Pending(before, k) && !Pending(after, k) && k < last {
        assert Pending(before[..last], k) && !Pending(after[..last], k);
      }
    }
  }

  lemma DrainProgresses<E>(rows: seq<OutboxRow<E>>, accepts: set<nat>, commits: bool)
    ensures Progressed(rows, AfterDrain(rows, accepts, commits))
  {
    var sent := Sent(rows, {}, BATCH_SIZE, accepts);
    SentInOrder(rows, {}, BATCH_SIZE, accepts);
  }

  // ---- A hundred malformed rows ahead ---------------------------------------------------

  lemma {:induction false} PoisonSelected<E>(rows: seq<OutboxRow<E>>, i: nat)
    requires i <= |rows|
    ensures Poisoned(rows[..i]) <= |Selected(rows, {}, i)|
  {
    if i > 0 {
      PoisonSelected(rows, i - 1);
      assert rows[..i][..i - 1] == rows[..i - 1];
    }
  }

  // A drain's batch reaches row i exactly when fewer rows than it holds can be
  // selected before it. Rows that other drains have locked do not count, so a
  // second poller can get past malformed rows while a first one holds them.
  lemma BatchReaches<E>(rows: seq<OutboxRow<E>>, locked: set<nat>, limit: nat, i: nat)
    requires i < |rows|
    ensures i in Batch(rows, locked, limit) <==> Selectable(rows, locked, i) && |Selected(rows, locked, i)| < limit
  {
    var before, all := Selected(rows, locked, i), Selected(rows, locked, |rows|);
    SelectedGrows(rows, locked, i, |rows|);
    SelectedMember(rows, locked, |rows|, i);
    SelectedMember(rows, locked, i, i);
    if Selectable(rows, locked, i) {
      SelectedGrows(rows, locked, i + 1, |rows|);
      assert Selected(rows, locked, i + 1) == before + [i];
      assert all[|before|] == i;
    }
    if |before| >= limit {
      assert Batch(rows, locked, limit) == before[..limit];
    }
  }

  // The row stays behind the batch.
  lemma Hidden<E>(rows: seq<OutboxRow<E>>, i: nat)
    requires i < |rows| && Poisoned(rows[..i]) >= BATCH_SIZE
    ensures i !in Batch(rows, {}, BATCH_SIZE)
  {
    PoisonSelected(rows, i);
    BatchReaches(rows, {}, BATCH_SIZE, i);
  }

  lemma DrainHidden<E>(rows: seq<OutboxRow<E>>, accepts: set<nat>, commits: bool, i: nat)
    requires Pending(rows, i) && Poisoned(rows[..i]) >= BATCH_SIZE
    ensures Pending(AfterDrain(rows, accepts, commits), i)
  {
    Hidden(rows, i);
    SentInOrder(rows, {}, BATCH_SIZE, accepts);
  }

  // ---- Fewer than a hundred ---------------------------------------------------------------

  // A batch that does not reach row i holds a well-formed row before it.
  lemma EarlierWork<E>(rows: seq<OutboxRow<E>>, i: nat) returns (j: nat)
    requires Pending(rows, i) && Poisoned(rows[..i]) < BATCH_SIZE
    ensures j <= i && Pending(rows, j) && j in Batch(rows, {}, BATCH_SIZE)
  {
    var batch := Batch(rows, {}, BATCH_SIZE);
    BatchExact(rows, {}, BATCH_SIZE);
    assert Selectable(rows, {}, i);
    j := i;
    if i !in batch {
      forall n | 0 <= n < |batch|
        ensures batch[n] < i && !rows[batch[n]].published
      {
        assert batch[n] in batch;
      }
      if forall n :: 0 <= n < |batch| ==> rows[batch[n]].envelope.None? {
        PoisonCount(rows[..i], batch);
        assert false;
      }
      var n :| 0 <= n < |batch| && rows[batch[n]].envelope.Some?;
      j := batch[n];
    }
  }

  lemma FullDrainSends<E>(rows: seq<OutboxRow<E>>, b: Beat<E>, j: nat)
    requires Full(rows, b) && Pending(rows, j) && j in Batch(rows, {}, BATCH_SIZE)
    ensures After(rows, b)[j].published
  {
    SentInOrder(rows, {}, BATCH_SIZE, b.accepts);
    assert j in Sent(rows, {}, BATCH_SIZE, b.accepts);
  }

  // A full drain publishes row i, or one of the well-formed rows before it.
  lemma FullDrainAdvances<E>(rows: seq<OutboxRow<E>>, b: Beat<E>, i: nat)
    requires Full(rows, b) && Pending(rows, i) && Poisoned(rows[..i]) < BATCH_SIZE
    ensures i < |After(rows, b)|
    ensures After(rows, b)[i].published || Waiting(After(rows, b)[..i]) < Waiting(rows[..i])
  {
    var after := After(rows, b);
    var j := EarlierWork(rows, i);
    DrainProgresses(rows, b.accepts, b.commits);
    FullDrainSends(rows, b, j);
    if j < i {
      assert Progressed(rows[..i], after[..i]);
      assert Pending(rows[..i], j) && !Pending(after[..i], j);
      ProgressCounts(rows[..i], after[..i]);
    }
  }

  // ---- The fate of a row --------------------------------------------------------------------

  // What one beat does to row i and the rows before it.
  lemma BeatStep<E>(rows: seq<OutboxRow<E>>, b: Beat<E>, i: nat)
    requires i < |rows|
    ensures var after := After(rows, b);
            && i < |after| && after[i].envelope == rows[i].envelope
            && (rows[i].published ==> after[i].published)
            && Poisoned(after[..i]) == Poisoned(rows[..i]) && Waiting(after[..i]) <= Waiting(rows[..i])
  {
    var after := After(rows, b);
    if b.Insert? {
      assert after[..i] == rows[..i];
    } else {
      DrainProgresses(rows, b.accepts, b.commits);
      assert Progressed(rows[..i], after[..i]);
      ProgressCounts(rows[..i], after[..i]);
    }
  }

  lemma {:induction false} PublishedStays<E>(rows: seq<OutboxRow<E>>, beats: seq<Beat<E>>, i: nat)
    requires i < |rows| && rows[i].published
    ensures i < |AfterAll(rows, beats)| && AfterAll(rows, beats)[i].published
    decreases |beats|
  {
    if beats != [] {
      BeatStep(rows, beats[0], i);
      PublishedStays(After(rows, beats[0]), beats[1..], i);
    }
  }

  // With a hundred malformed pending rows before it, a row is never published,
  // whatever is drained and inserted.
  lemma {:induction false} StuckForGood<E>(rows: seq<OutboxRow<E>>, beats: seq<Beat<E>>, i: nat)
    requires Pending(rows, i) && Poisoned(rows[..i]) >= BATCH_SIZE
    ensures Pending(AfterAll(rows, beats), i)
    decreases |beats|
  {
    if beats != [] {
      var b := beats[0];
      BeatStep(rows, b, i);
      if b.Drain? {
        DrainHidden(rows, b.accepts, b.commits, i);
      }
      StuckForGood(After(rows, b), beats[1..], i);
    }
  }

  // With fewer, it is, after at most one full drain more than there are
  // well-formed rows waiting before it, whatever else happens in between.
  lemma {:induction false} GoesOut<E>(rows: seq<OutboxRow<E>>, beats: seq<Beat<E>>, i: nat)
    requires Pending(rows, i) && Poisoned(rows[..i]) < BATCH_SIZE
    requires FullDrains(rows, beats) > Waiting(rows[..i])
    ensures i < |AfterAll(rows, beats)| && AfterAll(rows, beats)[i].published
    decreases |beats|
  {
    var after := After(rows, beats[0]);
    BeatStep(rows, beats[0], i);
    if Full(rows, beats[0]) {
      FullDrainAdvances(rows, beats[0], i);
    }
    if after[i].published {
      PublishedStays(after, beats[1..], i);
    } else {
      GoesOut(after, beats[1..], i);
    }
  }

  // n drains by the only poller while the broker takes everything.
  function FullBeats<E>(size: nat, n: nat): (r: seq<Beat<E>>)
    ensures |r| == n
  {
    seq(n, j => Drain(RowIds(size), true))
  }

  lemma {:induction false} FullBeatsCount<E>(rows: seq<OutboxRow<E>>, n: nat)
    ensures FullDrains(rows, FullBeats(|rows|, n)) == n
    decreases n
  {
    if n > 0 {
      var beats: seq<Beat<E>> := FullBeats(|rows|, n);
      var after := After(rows, beats[0]);
      DrainProgresses(rows, RowIds(|rows|), true);
      assert beats[1..] == FullBeats<E>(|after|, n - 1);
      FullBeatsCount(after, n - 1);
    }
  }

  lemma {:induction false} IteratedBeats<E>(f: seq<OutboxRow<E>> -> seq<OutboxRow<E>>, rows: seq<OutboxRow<E>>, n: nat)
    requires forall r :: f(r) == Tick(r)
    ensures Iterate(f, rows, n) == AfterAll(rows, FullBeats(|rows|, n))
    decreases n
  {
    if n > 0 {
      var beats: seq<Beat<E>> := FullBeats(|rows|, n);
      var after := After(rows, beats[0]);
      DrainProgresses(rows, RowIds(|rows|), true);
      assert after == f(rows);
      assert beats[1..] == FullBeats<E>(|after|, n - 1);
      IteratedBeats(f, after, n - 1);
    }
  }

  lemma TicksAreBeats<E>(rows: seq<OutboxRow<E>>, n: nat)
    ensures Ticks(rows, n) == AfterAll(rows, FullBeats(|rows|, n))
  {
    IteratedBeats((r: seq<OutboxRow<E>>) => Tick(r), rows, n);
  }

  // In a table nothing is inserted into: the poller alone, and a broker that
  // takes everything, publish the row in the end if and only if fewer than a
  // batch of malformed pending rows stand before it.
  lemma TicksExact<E>(rows: seq<OutboxRow<E>>, i: nat)
    requires Pending(rows, i)
    ensures (exists n :: i < |Ticks(rows, n)| && Ticks(rows, n)[i].published) <==> Poisoned(rows[..i]) < 100
  {
    if Poisoned(rows[..i]) < BATCH_SIZE {
      var n := Waiting(rows[..i]) + 1;
      FullBeatsCount(rows, n);
      GoesOut(rows, FullBeats(|rows|, n), i);
      TicksAreBeats(rows, n);
    } else {
      forall n: nat
        ensures Pending(Ticks(rows, n), i)
      {
        TicksAreBeats(rows, n);
        StuckForGood(rows, FullBeats(|rows|, n), i);
      }
    }
  }

  // Exactly when a pending well-formed row can still go out: fewer than a
  // batch of malformed pending rows stand before it. Nothing that is inserted
  // later makes a difference.
  lemma FateExact<E>(rows: seq<OutboxRow<E>>, i: nat)
    requires Pending(rows, i)
    ensures (exists beats :: i < |AfterAll(rows, beats)| && AfterAll(rows, beats)[i].published) <==> Poisoned(rows[..i]) < 100
    ensures Poisoned(rows[..i]) < BATCH_SIZE ==>
              forall beats :: FullDrains(rows, beats) > Waiting(rows[..i]) ==>
                i < |AfterAll(rows, beats)| && AfterAll(rows, beats)[i].published
  {
    if Poisoned(rows[..i]) < BATCH_SIZE {
      forall beats | FullDrains(rows, beats) > Waiting(rows[..i])
        ensures i < |AfterAll(rows, beats)| && AfterAll(rows, beats)[i].published
      {
        GoesOut(rows, beats, i);
      }
      var n := Waiting(rows[..i]) + 1;
      FullBeatsCount(rows, n);
      assert AfterAll(rows, FullBeats(|rows|, n))[i].published;
    } else {
      forall beats
        ensures Pending(AfterAll(rows, beats), i)
      {
        StuckForGood(rows, beats, i);
      }
    }
  }
}
