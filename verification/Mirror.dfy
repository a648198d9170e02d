// The reconciliation service's mirror of the ledger: the event consumer
// (services/reconciliation/internal/adapters/natsconsumer/consumer.go:88-147)
// and its idempotent insert (services/reconciliation/internal/adapters/
// postgres/store.go:38-65).
module Mirrors {
  import opened Int64
  import opened Wrappers
  import opened Decimal
  import opened Money
  import opened Domain
  import opened Fingerprints
  import opened LedgerTables
  import opened LedgerInvariant

  // PostingID: a name-based UUID over the transaction id and the posting's
  // index, taken to be injective.
  datatype EntryId = EntryId(transaction: Id, index: nat)

  datatype MirrorEntry = MirrorEntry(
    id: EntryId,
    transaction: Id,
    account: Id,
    direction: string,
    amount: int,
    asset: string,
    reference: string,
    postedAt: Time)

  // What the consumer tells the broker: done, deliver again, never again.
  datatype Answer = Ack | Nak | Term

  // What becomes of a delivered message.
  datatype Handled = Entries(entries: seq<MirrorEntry>) | Ignored | Terminated

  function EntryFor(e: Event, i: nat, units: int): MirrorEntry
    requires e.TransactionPosted? && i < |e.postings|
  {
    var p := e.postings[i];
    MirrorEntry(EntryId(e.transaction, i), e.transaction, p.account, p.direction, units, p.amount.asset, e.key, e.postedAt)
  }

  predicate AmountsParse(e: Event)
    requires e.TransactionPosted?
  {
    forall i :: 0 <= i < |e.postings| ==> ParseInt(e.postings[i].amount.amount).Some?
  }

  function EntriesOf(e: Event): seq<MirrorEntry>
    requires e.TransactionPosted? && AmountsParse(e)
  {
    seq(|e.postings|, i requires 0 <= i < |e.postings| =>
      EntryFor(e, i, ParseInt(e.postings[i].amount.amount).value))
  }

  function Handling(e: Event): Handled {
    if !e.TransactionPosted? then Ignored
    else if AmountsParse(e) then Entries(EntriesOf(e))
    else Terminated
  }

  method Handle(e: Event) returns (r: Handled)
    ensures r == Handling(e)
  {
    if !e.TransactionPosted? {
      return Ignored;
    }
    var entries: seq<MirrorEntry> := [];
    for i := 0 to |e.postings|
      invariant |entries| == i && Read(e, entries)
    {
      var p := e.postings[i];
      var units := ParseInt(p.amount.amount);
      if units.None? {
        return Terminated;
      }
      var entry := MirrorEntry(EntryId(e.transaction, i), e.transaction, p.account, p.direction, units.value,
                               p.amount.asset, e.key, e.postedAt);
      ReadOne(e, entries, entry);
      entries := entries + [entry];
    }
    AllRead(e, entries);
    return Entries(entries);
  }

  // The entries of the first postings, all of whose amounts can be read.
  ghost predicate Read(e: Event, entries: seq<MirrorEntry>)
    requires e.TransactionPosted?
  {
    && |entries| <= |e.postings|
    && forall j :: 0 <= j < |entries| ==> ReadAt(e, j, entries[j])
  }

  predicate ReadAt(e: Event, j: nat, entry: MirrorEntry)
    requires e.TransactionPosted? && j < |e.postings|
  {
    var units := ParseInt(e.postings[j].amount.amount);
    units.Some? && entry == EntryFor(e, j, units.value)
  }

  lemma ReadOne(e: Event, entries: seq<MirrorEntry>, entry: MirrorEntry)
    requires e.TransactionPosted? && Read(e, entries) && |entries| < |e.postings|
    requires ReadAt(e, |entries|, entry)
    ensures Read(e, entries + [entry])
  {
  }

  lemma AllRead(e: Event, entries: seq<MirrorEntry>)
    requires e.TransactionPosted? && Read(e, entries) && |entries| == |e.postings|
    ensures Handling(e) == Entries(entries)
  {
    forall i | 0 <= i < |e.postings|
      ensures ParseInt(e.postings[i].amount.amount).Some?
      ensures entries[i] == EntryFor(e, i, ParseInt(e.postings[i].amount.amount).value)
    {
      assert ReadAt(e, i, entries[i]);
    }
    assert entries == EntriesOf(e);
  }

  // ---- The table --------------------------------------------------------------------

  predicate HasEntry(table: seq<MirrorEntry>, id: EntryId) {
    exists i :: 0 <= i < |table| && table[i].id == id
  }

  // INSERT ... ON CONFLICT (id) DO NOTHING, one entry after the other.
  function Inserted(table: seq<MirrorEntry>, entries: seq<MirrorEntry>): seq<MirrorEntry> {
    if entries == [] then table
    else
      var before := Inserted(table, entries[..|entries| - 1]);
      var e := entries[|entries| - 1];
      if HasEntry(before, e.id) then before else before + [e]
  }

  class Mirror {
    var table: seq<MirrorEntry>

    constructor ()
      ensures table == []
    {
      table := [];
    }

    method InsertMirrorEntries(entries: seq<MirrorEntry>)
      modifies this
      ensures table == Inserted(old(table), entries)
    {
      var rows := table;
      for n := 0 to |entries|
        invariant table == old(table) && rows == Inserted(old(table), entries[..n])
      {
        assert entries[..n + 1][..n] == entries[..n];
        if !HasEntry(rows, entries[n].id) {
          rows := rows + [entries[n]];
        }
      }
      assert entries[..|entries|] == entries;
      table := rows;
    }

    // One delivery: persists all of a message's entries, or none when the
    // database transaction fails and the message is handed back.
    method Deliver(e: Event, persists: bool) returns (answer: Answer)
      modifies this
      ensures table == if persists && Handling(e).Entries? then Inserted(old(table), Handling(e).entries) else old(table)
      ensures answer == match Handling(e)
                        case Terminated => Term
                        case Ignored => Ack
                        case Entries(entries) => if persists || entries == [] then Ack else Nak
    {
      var r := Handle(e);
      match r
      case Terminated => answer := Term;
      case Ignored => answer := Ack;
      case Entries(entries) =>
        answer := Ack;
        if |entries| > 0 {
          if persists {
            InsertMirrorEntries(entries);
          } else {
            answer := Nak;
          }
        }
    }
  }

  ghost predicate DistinctEntries(table: seq<MirrorEntry>) {
    forall i, j :: 0 <= i < j < |table| ==> table[i].id != table[j].id
  }

  // Inserting keeps every row and every id unique, adds nothing but the given
  // entries, and leaves a row for each of their ids.
  lemma {:induction false} InsertedExact(table: seq<MirrorEntry>, entries: seq<MirrorEntry>)
    ensures table <= Inserted(table, entries)
    ensures DistinctEntries(table) ==> DistinctEntries(Inserted(table, entries))
    ensures forall e :: e in Inserted(table, entries) ==> e in table || e in entries
    ensures forall e :: e in entries ==> HasEntry(Inserted(table, entries), e.id)
  {
    if entries != [] {
      var init, last := entries[..|entries| - 1], entries[|entries| - 1];
      InsertedExact(table, init);
      assert entries == init + [last];
      var before, after := Inserted(table, init), Inserted(table, entries);
      forall e | e in entries
        ensures HasEntry(after, e.id)
      {
        if e in init {
          var i :| 0 <= i < |before| && before[i].id == e.id;
          assert after[i].id == e.id;
        } else if !HasEntry(before, last.id) {
          assert after[|before|].id == e.id;
        }
      }
    }
  }

  // Delivering a message again changes nothing.
  lemma {:induction false} InsertedTwice(table: seq<MirrorEntry>, entries: seq<MirrorEntry>)
    requires forall e :: e in entries ==> HasEntry(table, e.id)
    ensures Inserted(table, entries) == table
  {
    if entries != [] {
      var init := entries[..|entries| - 1];
      assert forall e :: e in init ==> e in entries;
      InsertedTwice(table, init);
      assert entries[|entries| - 1] in entries;
    }
  }

  // ---- Events the ledger writes ------------------------------------------------------------

  // e is the mirror image of posting i of t.
  ghost predicate Copies(e: MirrorEntry, t: Transaction, i: nat) {
    && i < |t.postings|
    && e.id == EntryId(t.id, i) && e.transaction == t.id && e.reference == t.key
    && e.account == t.postings[i].account && e.asset == t.postings[i].amount.asset
    && e.amount == t.postings[i].amount.units && e.postedAt == PostedTime(t)
    && (t.postings[i].direction == Debit ==> e.direction == "DEBIT")
    && (t.postings[i].direction == Credit ==> e.direction == "CREDIT")
  }

  // A posted event of a well-formed transaction is never terminated, and its
  // entries are the transaction's postings: amounts survive their text form.
  lemma PostedHandled(e: Event, t: Transaction)
    requires EventOf(e, t) && WellFormedPostings(t.postings)
    ensures Handling(e).Entries? && |Handling(e).entries| == |t.postings|
    ensures forall i :: 0 <= i < |t.postings| ==> Copies(Handling(e).entries[i], t, i)
  {
    forall i | 0 <= i < |e.postings|
      ensures ParseInt(e.postings[i].amount.amount) == Some(t.postings[i].amount.units)
    {
      assert WellFormedPosting(t.postings[i]);
      ParseIntText(t.postings[i].amount.units);
    }
  }

  // Messages of other kinds are ignored, a posted event with an amount that is
  // not an int64 is terminated, and any other yields one entry per posting.
  lemma HandlingExact(e: Event)
    ensures Handling(e).Ignored? <==> !e.TransactionPosted?
    ensures Handling(e).Terminated? <==>
              e.TransactionPosted? && exists i :: 0 <= i < |e.postings| && ParseInt(e.postings[i].amount.amount).None?
    ensures Handling(e).Entries? ==>
              && e.TransactionPosted? && |Handling(e).entries| == |e.postings|
              && forall i :: 0 <= i < |e.postings| ==> Entered(Handling(e).entries[i], e, i)
  {
  }

  // Entry i of a posted event.
  predicate Entered(x: MirrorEntry, e: Event, i: nat)
    requires e.TransactionPosted? && i < |e.postings|
  {
    && x.id == EntryId(e.transaction, i) && x.transaction == e.transaction && x.reference == e.key
    && x.account == e.postings[i].account && x.direction == e.postings[i].direction
    && Some(x.amount) == ParseInt(e.postings[i].amount.amount) && x.asset == e.postings[i].amount.asset
    && x.postedAt == e.postedAt
  }
}
