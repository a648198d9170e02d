// End to end: ledger steps, drains that may crash between publishing and
// committing, and deliveries repeated and reordered at will. The effect on
// the mirror is exactly once.
module Pipelines {
  import opened Wrappers
  import opened Domain
  import opened LedgerTables
  import opened LedgerSteps
  import opened LedgerInvariant
  import opened LedgerRuns
  import opened LedgerHistory
  import Outboxes
  import opened Mirrors

  // Outbox rows are named by their position: marked rows are done with,
  // broker rows were published at least once, acked rows were consumed.
  datatype World = World(db: Db, marked: set<nat>, broker: set<nat>, acked: set<nat>, mirror: seq<MirrorEntry>)

  const EMPTY_WORLD := World(EMPTY_DB, {}, {}, {}, [])

  datatype Move =
    | Ledger(command: Command)
    | Drain(locked: set<nat>, accepts: set<nat>, commits: bool)
    | Deliver(row: nat, persists: bool)

  function Rows(w: World): seq<Outboxes.OutboxRow<Event>> {
    seq(|w.db.outbox|, i requires 0 <= i < |w.db.outbox| => Outboxes.OutboxRow(Some(w.db.outbox[i]), i in w.marked))
  }

  function Published(w: World, locked: set<nat>, accepts: set<nat>): set<nat> {
    set n | n in Outboxes.Sent(Rows(w), locked, Outboxes.BATCH_SIZE, accepts)
  }

  function AfterDelivery(w: World, n: nat): World
    requires n < |w.db.outbox|
  {
    var r := Handling(w.db.outbox[n]);
    w.(acked := w.acked + {n}, mirror := if r.Entries? then Inserted(w.mirror, r.entries) else w.mirror)
  }

  ghost function Apply(w: World, m: Move): World {
    match m
    case Ledger(command) => w.(db := Step(w.db, command))
    case Drain(locked, accepts, commits) =>
      var sent := Published(w, locked, accepts);
      w.(broker := w.broker + sent, marked := if commits then w.marked + sent else w.marked)
    case Deliver(n, persists) =>
      if n in w.broker && n < |w.db.outbox| && persists then AfterDelivery(w, n) else w
  }

  function Fold<S, M>(f: (S, M) -> S, s: S, ms: seq<M>): S {
    if ms == [] then s else f(Fold(f, s, ms[..|ms| - 1]), ms[|ms| - 1])
  }

  // A whole run.
  ghost function Flow(w: World, moves: seq<Move>): World {
    Fold((x: World, m: Move) => Apply(x, m), w, moves)
  }

  lemma FoldSnoc<S, M>(f: (S, M) -> S, s: S, ms: seq<M>, m: M)
    ensures Fold(f, s, ms + [m]) == f(Fold(f, s, ms), m)
  {
    assert (ms + [m])[..|ms|] == ms;
  }

  lemma {:induction false} FoldConcat<S, M>(f: (S, M) -> S, s: S, a: seq<M>, b: seq<M>)
    ensures Fold(f, s, a + b) == Fold(f, Fold(f, s, a), b)
  {
    if b == [] {
      assert a + b == a;
    } else {
      var init, last := b[..|b| - 1], b[|b| - 1];
      FoldConcat(f, s, a, init);
      assert a + b == (a + init) + [last] && b == init + [last];
      FoldSnoc(f, s, a + init, last);
    }
  }

  lemma {:induction false} FoldKeeps<S, M(!new)>(f: (S, M) -> S, inv: S -> bool, s: S, ms: seq<M>)
    requires inv(s) && forall x, m :: inv(x) ==> inv(f(x, m))
    ensures inv(Fold(f, s, ms))
  {
    if ms != [] {
      FoldKeeps(f, inv, s, ms[..|ms| - 1]);
    }
  }

  lemma FlowSnoc(w: World, moves: seq<Move>, m: Move)
    ensures Flow(w, moves + [m]) == Apply(Flow(w, moves), m)
  {
    FoldSnoc((x: World, n: Move) => Apply(x, n), w, moves, m);
  }

  lemma FlowConcat(w: World, a: seq<Move>, b: seq<Move>)
    ensures Flow(w, a + b) == Flow(Flow(w, a), b)
  {
    FoldConcat((x: World, m: Move) => Apply(x, m), w, a, b);
  }

  // ---- One event per announced transaction -------------------------------------------

  predicate PostedAt(outbox: seq<Event>, n: int, id: Id) {
    0 <= n < |outbox| && outbox[n].TransactionPosted? && outbox[n].transaction == id
  }

  lemma {:induction false} AnnouncementsCount(outbox: seq<Event>, m: nat, n: nat, id: Id)
    requires m <= n && PostedAt(outbox, m, id) && PostedAt(outbox, n, id)
    ensures Announcements(outbox, id) >= if m == n then 1 else 2
  {
    var last := |outbox| - 1;
    if n < last {
      AnnouncementsCount(outbox[..last], m, n, id);
    } else if m < n {
      AnnouncementsCount(outbox[..last], m, m, id);
    }
  }

  lemma {:induction false} AnnouncedSomewhere(outbox: seq<Event>, id: Id) returns (n: nat)
    requires Announcements(outbox, id) > 0
    ensures PostedAt(outbox, n, id)
  {
    n := |outbox| - 1;
    if !PostedAt(outbox, n, id) {
      n := AnnouncedSomewhere(outbox[..n], id);
    }
  }

  // The transaction a posted event announces.
  lemma EventSource(db: Db, n: nat) returns (i: nat)
    requires Inv(db) && n < |db.outbox| && db.outbox[n].TransactionPosted?
    ensures i < |db.txs| && EventOf(db.outbox[n], db.txs[i]) && Announced(db.txs[i])
    ensures WellFormedPostings(db.txs[i].postings)
  {
    i :| 0 <= i < |db.txs| && EventOf(db.outbox[n], db.txs[i]);
    AnnouncementsCount(db.outbox, n, n, db.txs[i].id);
    assert SoundTx(db.ledgers, db.accounts, db.txs[i]);
  }

  lemma OneEvent(db: Db, m: nat, n: nat, id: Id)
    requires Inv(db) && PostedAt(db.outbox, m, id) && PostedAt(db.outbox, n, id)
    ensures m == n
  {
    var i := EventSource(db, m);
    if m < n {
      AnnouncementsCount(db.outbox, m, n, id);
    } else if n < m {
      AnnouncementsCount(db.outbox, n, m, id);
    }
  }

  // Every announced transaction has exactly one posted event, wherever the
  // run has got to; a draft or a reversal has none.
  lemma EventsExact(cs: seq<Command>, i: nat)
    requires i < |Run(EMPTY_DB, cs).txs|
    ensures var db := Run(EMPTY_DB, cs);
            var id := db.txs[i].id;
            && ((exists n :: PostedAt(db.outbox, n, id)) <==> Announced(db.txs[i]))
            && (forall m, n :: PostedAt(db.outbox, m, id) && PostedAt(db.outbox, n, id) ==> m == n)
            && (forall n :: PostedAt(db.outbox, n, id) ==> EventOf(db.outbox[n], db.txs[i]))
  {
    RunKeeps(cs);
    var db := Run(EMPTY_DB, cs);
    var id := db.txs[i].id;
    if Announced(db.txs[i]) {
      var n := AnnouncedSomewhere(db.outbox, id);
    }
    forall m | PostedAt(db.outbox, m, id)
      ensures Announced(db.txs[i]) && EventOf(db.outbox[m], db.txs[i])
    {
      var j := EventSource(db, m);
      assert j == i;
    }
    forall m, n | PostedAt(db.outbox, m, id) && PostedAt(db.outbox, n, id)
      ensures m == n
    {
      OneEvent(db, m, n, id);
    }
  }

  // ---- What every interleaving keeps ---------------------------------------------------

  ghost predicate FromRow(outbox: seq<Event>, n: nat, e: MirrorEntry) {
    && n < |outbox| && outbox[n].TransactionPosted? && Handling(outbox[n]).Entries?
    && e in Handling(outbox[n]).entries
  }

  ghost predicate Sourced(outbox: seq<Event>, broker: set<nat>, mirror: seq<MirrorEntry>) {
    forall e :: e in mirror ==> exists n :: n in broker && FromRow(outbox, n, e)
  }

  ghost predicate Consumed(outbox: seq<Event>, acked: set<nat>, mirror: seq<MirrorEntry>) {
    forall n, e :: n in acked && FromRow(outbox, n, e) ==> e in mirror
  }

  ghost predicate FlowInv(w: World) {
    && Inv(w.db)
    && w.marked <= w.broker && w.acked <= w.broker
    && (forall n :: n in w.broker ==> n < |w.db.outbox|)
    && DistinctEntries(w.mirror)
    && Sourced(w.db.outbox, w.broker, w.mirror)
    && Consumed(w.db.outbox, w.acked, w.mirror)
  }

  lemma LedgerFlow(w: World, c: Command)
    requires FlowInv(w)
    ensures FlowInv(Apply(w, Ledger(c)))
  {
    var after := Step(w.db, c);
    StepKeeps(w.db, c);
    StepExtends(w.db, c);
    assert w.db.outbox <= after.outbox;
    RowsStay(w.db.outbox, after.outbox, w.broker, w.acked, w.mirror);
  }

  lemma RowsStay(outbox: seq<Event>, after: seq<Event>, broker: set<nat>, acked: set<nat>, mirror: seq<MirrorEntry>)
    requires outbox <= after && acked <= broker && forall n :: n in broker ==> n < |outbox|
    requires Sourced(outbox, broker, mirror) && Consumed(outbox, acked, mirror)
    ensures Sourced(after, broker, mirror) && Consumed(after, acked, mirror)
  {
    forall n: nat, e | n in broker
      ensures FromRow(after, n, e) <==> FromRow(outbox, n, e)
    {
      assert after[n] == outbox[n];
    }
    forall e | e in mirror
      ensures exists n :: n in broker && FromRow(after, n, e)
    {
      var n :| n in broker && FromRow(outbox, n, e);
      assert FromRow(after, n, e);
    }
  }

  lemma DrainFlow(w: World, locked: set<nat>, accepts: set<nat>, commits: bool)
    requires FlowInv(w)
    ensures FlowInv(Apply(w, Drain(locked, accepts, commits)))
  {
    var after := Apply(w, Drain(locked, accepts, commits));
    forall e | e in w.mirror
      ensures exists n :: n in after.broker && FromRow(w.db.outbox, n, e)
    {
      var n :| n in w.broker && FromRow(w.db.outbox, n, e);
      assert n in after.broker;
    }
  }

  lemma EntryPlace(e: Event, x: MirrorEntry)
    requires e.TransactionPosted? && AmountsParse(e) && x in EntriesOf(e)
    ensures x.id.transaction == e.transaction && x.id.index < |e.postings| && x == EntriesOf(e)[x.id.index]
  {
  }

  // Entries with the same id are the same entry, because they can only come
  // from the same outbox row.
  lemma SameEntry(db: Db, m: nat, n: nat, x: MirrorEntry, y: MirrorEntry)
    requires Inv(db) && FromRow(db.outbox, m, x) && FromRow(db.outbox, n, y) && x.id == y.id
    ensures x == y
  {
    EntryPlace(db.outbox[m], x);
    EntryPlace(db.outbox[n], y);
    OneEvent(db, m, n, x.id.transaction);
  }

  lemma DeliveryStores(w: World, n: nat, x: MirrorEntry)
    requires FlowInv(w) && n in w.broker && FromRow(w.db.outbox, n, x)
    ensures x in AfterDelivery(w, n).mirror
  {
    var entries := Handling(w.db.outbox[n]).entries;
    InsertedExact(w.mirror, entries);
    var after := AfterDelivery(w, n).mirror;
    var i :| 0 <= i < |after| && after[i].id == x.id;
    var y := after[i];
    assert y in after;
    if y in w.mirror {
      var m :| m in w.broker && FromRow(w.db.outbox, m, y);
      SameEntry(w.db, n, m, x, y);
    } else {
      assert FromRow(w.db.outbox, n, y);
      SameEntry(w.db, n, n, x, y);
    }
  }

  lemma DeliverSourced(w: World, n: nat)
    requires FlowInv(w) && n in w.broker
    ensures Sourced(w.db.outbox, w.broker, AfterDelivery(w, n).mirror)
  {
    var r := Handling(w.db.outbox[n]);
    if r.Entries? {
      InsertedExact(w.mirror, r.entries);
      forall e | e in AfterDelivery(w, n).mirror
        ensures exists m :: m in w.broker && FromRow(w.db.outbox, m, e)
      {
        if e in w.mirror {
          var m :| m in w.broker && FromRow(w.db.outbox, m, e);
        } else {
          assert FromRow(w.db.outbox, n, e);
        }
      }
    }
  }

  lemma DeliverConsumed(w: World, n: nat)
    requires n < |w.db.outbox| && Consumed(w.db.outbox, w.acked, w.mirror)
    requires forall e :: FromRow(w.db.outbox, n, e) ==> e in AfterDelivery(w, n).mirror
    ensures Consumed(w.db.outbox, w.acked + {n}, AfterDelivery(w, n).mirror)
  {
    var r := Handling(w.db.outbox[n]);
    if r.Entries? {
      InsertedExact(w.mirror, r.entries);
    }
    forall m: nat, e | m in w.acked + {n} && FromRow(w.db.outbox, m, e)
      ensures e in AfterDelivery(w, n).mirror
    {
      if m != n {
        assert e in w.mirror;
      }
    }
  }

  lemma DeliverFlow(w: World, n: nat)
    requires FlowInv(w) && n in w.broker
    ensures FlowInv(AfterDelivery(w, n))
  {
    DeliverSourced(w, n);
    forall e | FromRow(w.db.outbox, n, e)
      ensures e in AfterDelivery(w, n).mirror
    {
      DeliveryStores(w, n, e);
    }
    DeliverConsumed(w, n);
    var r := Handling(w.db.outbox[n]);
    if r.Entries? {
      InsertedExact(w.mirror, r.entries);
    }
  }

  lemma MoveKeeps(w: World, m: Move)
    requires FlowInv(w)
    ensures FlowInv(Apply(w, m))
  {
    match m
    case Ledger(command) => LedgerFlow(w, command);
    case Drain(locked, accepts, commits) => DrainFlow(w, locked, accepts, commits);
    case Deliver(n, persists) =>
      if n in w.broker && persists {
        DeliverFlow(w, n);
      }
  }

  lemma EmptyFlow()
    ensures FlowInv(EMPTY_WORLD)
  {
    EmptyInv();
  }

  lemma FlowKeeps(moves: seq<Move>)
    ensures FlowInv(Flow(EMPTY_WORLD, moves))
  {
    EmptyFlow();
    forall w, m | FlowInv(w)
      ensures FlowInv(Apply(w, m))
    {
      MoveKeeps(w, m);
    }
    FoldKeeps((x: World, m: Move) => Apply(x, m), (x: World) => FlowInv(x), EMPTY_WORLD, moves);
  }

  // ---- Exactly once --------------------------------------------------------------------------

  ghost predicate CopyOfAnnounced(db: Db, e: MirrorEntry) {
    exists i, j: nat :: 0 <= i < |db.txs| && Announced(db.txs[i]) && Copies(e, db.txs[i], j)
  }

  // At any time: no posting is mirrored twice, and nothing is mirrored that
  // is not a posting of a transaction the ledger announced.
  lemma MirrorSafe(moves: seq<Move>)
    ensures var w := Flow(EMPTY_WORLD, moves);
            DistinctEntries(w.mirror) && forall e :: e in w.mirror ==> CopyOfAnnounced(w.db, e)
  {
    FlowKeeps(moves);
    var w := Flow(EMPTY_WORLD, moves);
    forall e | e in w.mirror
      ensures CopyOfAnnounced(w.db, e)
    {
      var n :| n in w.broker && FromRow(w.db.outbox, n, e);
      RowCopies(w.db, n, e);
    }
  }

  lemma RowCopies(db: Db, n: nat, e: MirrorEntry)
    requires Inv(db) && FromRow(db.outbox, n, e)
    ensures CopyOfAnnounced(db, e)
  {
    var i := EventSource(db, n);
    PostedHandled(db.outbox[n], db.txs[i]);
    EntryPlace(db.outbox[n], e);
    assert Copies(e, db.txs[i], e.id.index);
  }

  // Once every posted row was drained and its message consumed at least once,
  // the mirror also misses nothing: every posting of every announced
  // transaction has its one entry.
  lemma MirrorComplete(moves: seq<Move>, i: nat, j: nat)
    requires var w := Flow(EMPTY_WORLD, moves);
             && (forall n :: 0 <= n < |w.db.outbox| && w.db.outbox[n].TransactionPosted? ==> n in w.acked)
             && i < |w.db.txs| && Announced(w.db.txs[i]) && j < |w.db.txs[i].postings|
    ensures var w := Flow(EMPTY_WORLD, moves);
            exists e :: e in w.mirror && Copies(e, w.db.txs[i], j)
  {
    FlowKeeps(moves);
    var w := Flow(EMPTY_WORLD, moves);
    var n := AnnouncedSomewhere(w.db.outbox, w.db.txs[i].id);
    var k := EventSource(w.db, n);
    assert k == i;
    PostedHandled(w.db.outbox[n], w.db.txs[i]);
    var e := Handling(w.db.outbox[n]).entries[j];
    assert FromRow(w.db.outbox, n, e);
  }

  // ---- ... and it can always get there ----------------------------------------------------------

  lemma DrainIsTick(w: World)
    ensures var all := Outboxes.RowIds(|w.db.outbox|);
            var after := Apply(w, Drain({}, all, true));
            && Rows(after) == Outboxes.Tick(Rows(w)) && after.db == w.db && w.marked <= after.marked
  {
  }

  lemma {:induction false} NothingPoisoned(rows: seq<Outboxes.OutboxRow<Event>>)
    requires forall i :: 0 <= i < |rows| ==> rows[i].envelope.Some?
    ensures Outboxes.Poisoned(rows) == 0
  {
    if rows != [] {
      NothingPoisoned(rows[..|rows| - 1]);
    }
  }

  lemma {:induction false} NothingWaiting(rows: seq<Outboxes.OutboxRow<Event>>, i: nat)
    requires Outboxes.Waiting(rows) == 0 && i < |rows| && rows[i].envelope.Some?
    ensures rows[i].published
  {
    if i < |rows| - 1 {
      NothingWaiting(rows[..|rows| - 1], i);
    }
  }

  lemma {:induction false} DrainsOut(moves: seq<Move>) returns (more: seq<Move>)
    ensures moves <= more && forall i :: |moves| <= i < |more| ==> !more[i].Ledger?
    ensures var w, after := Flow(EMPTY_WORLD, moves), Flow(EMPTY_WORLD, more);
            after.db == w.db && forall n :: 0 <= n < |w.db.outbox| ==> n in after.marked
    decreases Outboxes.Waiting(Rows(Flow(EMPTY_WORLD, moves)))
  {
    var w := Flow(EMPTY_WORLD, moves);
    var rows := Rows(w);
    more := moves;
    NothingPoisoned(rows);
    if Outboxes.Waiting(rows) == 0 {
      forall n | 0 <= n < |w.db.outbox|
        ensures n in w.marked
      {
        NothingWaiting(rows, n);
        assert rows[n].published;
      }
    } else {
      var tick := Drain({}, Outboxes.RowIds(|w.db.outbox|), true);
      FlowSnoc(EMPTY_WORLD, moves, tick);
      DrainIsTick(w);
      Outboxes.TickDrains(rows);
      more := DrainsOut(moves + [tick]);
    }
  }

  lemma DeliverOne(w: World, n: nat)
    requires n in w.broker && n < |w.db.outbox|
    ensures var after := Apply(w, Deliver(n, true));
            after.db == w.db && after.broker == w.broker && after.acked == w.acked + {n}
  {
  }

  function Deliveries(k: nat): seq<Move> {
    seq(k, n requires 0 <= n < k => Deliver(n, true))
  }

  lemma {:induction false} DeliversOut(w: World, k: nat)
    requires k <= |w.db.outbox| && forall n: nat :: n < k ==> n in w.broker
    ensures var after := Flow(w, Deliveries(k));
            after.db == w.db && after.broker == w.broker && forall n: nat :: n < k ==> n in after.acked
  {
    if k > 0 {
      DeliversOut(w, k - 1);
      DeliverOne(Flow(w, Deliveries(k - 1)), k - 1);
      assert Deliveries(k) == Deliveries(k - 1) + [Deliver(k - 1, true)];
      FlowSnoc(w, Deliveries(k - 1), Deliver(k - 1, true));
    }
  }

  // Draining a while and delivering once are enough, after anything that
  // happened before.
  lemma Completable(moves: seq<Move>) returns (more: seq<Move>)
    ensures moves <= more && forall i :: |moves| <= i < |more| ==> !more[i].Ledger?
    ensures var w, after := Flow(EMPTY_WORLD, moves), Flow(EMPTY_WORLD, more);
            after.db == w.db && forall n: nat :: n < |w.db.outbox| ==> n in after.acked
  {
    var drained := DrainsOut(moves);
    FlowKeeps(drained);
    var w := Flow(EMPTY_WORLD, drained);
    DeliversOut(w, |w.db.outbox|);
    more := drained + Deliveries(|w.db.outbox|);
    FlowConcat(EMPTY_WORLD, drained, Deliveries(|w.db.outbox|));
  }
}
