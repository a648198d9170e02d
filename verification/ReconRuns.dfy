// Reconciliation runs: StartRun (services/reconciliation/internal/app/
// service.go:170-248) over the tables of services/reconciliation/internal/
// adapters/postgres/store.go:239-310.
module ReconRuns {
  import opened Wrappers
  import opened Domain
  import opened Mirrors
  import opened Matchers

  datatype Discrepancy = Discrepancy(run: Id, finding: Finding)

  datatype Run = Run(id: Id, source: Id, matched: nat, unmatched: nat)

  datatype RunFault = SourceRequired | SourceNotFound

  ghost predicate UniqueIds(rows: seq<External>) {
    forall i, j :: 0 <= i < j < |rows| ==> rows[i].id != rows[j].id
  }

  predicate InBatch(x: External, source: Id) {
    x.source == source && x.status == Unmatched
  }

  // WHERE source_id = source AND match_status = 'unmatched'; the table is
  // kept in listing order (occurred_at, id).
  function Batch(rows: seq<External>, source: Id): seq<External> {
    if rows == [] then []
    else
      var x := rows[|rows| - 1];
      Batch(rows[..|rows| - 1], source) + if InBatch(x, source) then [x] else []
  }

  // Where row i stands in the batch.
  function Place(rows: seq<External>, source: Id, i: nat): nat
    requires i <= |rows|
  {
    |Batch(rows[..i], source)|
  }

  lemma {:induction false} PlaceExact(rows: seq<External>, source: Id, i: nat)
    requires i < |rows| && InBatch(rows[i], source)
    ensures Place(rows, source, i) < |Batch(rows, source)|
    ensures Batch(rows, source)[Place(rows, source, i)] == rows[i]
  {
    var last := |rows| - 1;
    if i == last {
      assert rows[..i] == rows[..last];
    } else {
      PlaceExact(rows[..last], source, i);
      assert rows[..last][..i] == rows[..i];
    }
  }

  lemma {:induction false} PlaceSource(rows: seq<External>, source: Id, n: nat) returns (i: nat)
    requires n < |Batch(rows, source)|
    ensures i < |rows| && InBatch(rows[i], source) && Place(rows, source, i) == n
  {
    var last := |rows| - 1;
    if n < |Batch(rows[..last], source)| {
      i := PlaceSource(rows[..last], source, n);
      assert rows[..last][..i] == rows[..i];
    } else {
      i := last;
      assert rows[..i] == rows[..last];
    }
  }

  // Row i has the id of batch row n exactly when it is batch row n.
  lemma BatchRow(rows: seq<External>, source: Id, i: nat, n: nat)
    requires UniqueIds(rows) && i < |rows| && n < |Batch(rows, source)|
    ensures rows[i].id == Batch(rows, source)[n].id <==> InBatch(rows[i], source) && Place(rows, source, i) == n
  {
    var j := PlaceSource(rows, source, n);
    PlaceExact(rows, source, j);
    if InBatch(rows[i], source) {
      PlaceExact(rows, source, i);
    }
  }

  // ---- The table after a run, row by row -------------------------------------------

  predicate RepeatsEarlier(rows: seq<External>, source: Id, i: nat)
    requires i < |rows|
  {
    exists j :: 0 <= j < i && InBatch(rows[j], source) && rows[j].ref == rows[i].ref
  }

  function Settled(x: External, mirror: seq<MirrorEntry>, v: Verdict): External
    requires v.Backed? ==> v.entry < |mirror|
  {
    match v
    case Backed(e) => x.(status := Matched, entry := Some(mirror[e].id))
    case Mismatched(_) => x.(status := Disputed)
    case Repeated => x.(status := Disputed)
    case Absent => x
  }

  function RowVerdict(rows: seq<External>, source: Id, mirror: seq<MirrorEntry>, i: nat): (v: Verdict)
    requires i < |rows|
    ensures v.Backed? || v.Mismatched? ==> v.entry < |mirror|
  {
    if RepeatsEarlier(rows, source, i) then Repeated
    else if FirstCompatible(mirror, rows[i]).Some? then Backed(FirstCompatible(mirror, rows[i]).value)
    else if FirstSameRef(mirror, rows[i]).Some? then Mismatched(FirstSameRef(mirror, rows[i]).value)
    else Absent
  }

  function RowAfter(rows: seq<External>, source: Id, mirror: seq<MirrorEntry>, i: nat): External
    requires i < |rows|
  {
    if InBatch(rows[i], source) then Settled(rows[i], mirror, RowVerdict(rows, source, mirror, i)) else rows[i]
  }

  function RowsAfter(rows: seq<External>, source: Id, mirror: seq<MirrorEntry>): seq<External> {
    seq(|rows|, i requires 0 <= i < |rows| => RowAfter(rows, source, mirror, i))
  }

  lemma {:induction false} BatchVerdict(rows: seq<External>, source: Id, mirror: seq<MirrorEntry>, i: nat)
    requires i < |rows| && InBatch(rows[i], source)
    ensures Place(rows, source, i) < |Batch(rows, source)|
    ensures VerdictOf(Batch(rows, source), mirror, Place(rows, source, i)) == RowVerdict(rows, source, mirror, i)
  {
    var batch, n := Batch(rows, source), Place(rows, source, i);
    PlaceExact(rows, source, i);
    if RepeatsEarlier(rows, source, i) {
      var j :| 0 <= j < i && InBatch(rows[j], source) && rows[j].ref == rows[i].ref;
      PlaceExact(rows, source, j);
      PlaceGrows(rows, source, j, i);
      assert batch[Place(rows, source, j)].ref == batch[n].ref;
    }
    if IsRepeat(batch, n) {
      var m :| 0 <= m < n && batch[m].ref == batch[n].ref;
      var j := PlaceSource(rows, source, m);
      PlaceExact(rows, source, j);
      if j >= i {
        PlaceGrows(rows, source, i, j);
      }
    }
  }

  lemma {:induction false} PlaceGrows(rows: seq<External>, source: Id, j: nat, i: nat)
    requires j <= i <= |rows|
    ensures Place(rows, source, j) <= Place(rows, source, i)
    ensures j < i && InBatch(rows[j], source) ==> Place(rows, source, j) < Place(rows, source, i)
    decreases i
  {
    if j < i {
      PlaceGrows(rows, source, j, i - 1);
      assert rows[..i][..i - 1] == rows[..i - 1];
    }
  }

  // ---- The updates as the code makes them ----------------------------------------------

  function SetMatched(rows: seq<External>, id: Id, entry: EntryId): seq<External> {
    seq(|rows|, i requires 0 <= i < |rows| =>
      if rows[i].id == id then rows[i].(status := Matched, entry := Some(entry)) else rows[i])
  }

  function SetDisputed(rows: seq<External>, id: Id): seq<External> {
    seq(|rows|, i requires 0 <= i < |rows| => if rows[i].id == id then rows[i].(status := Disputed) else rows[i])
  }

  predicate Disputes(k: Kind) {
    k == AmountMismatch || k == Duplicate
  }

  function MatchAll(rows: seq<External>, matches: seq<MatchPair>): seq<External> {
    if matches == [] then rows
    else
      var m := matches[|matches| - 1];
      SetMatched(MatchAll(rows, matches[..|matches| - 1]), m.external, m.entry)
  }

  function DisputeAll(rows: seq<External>, findings: seq<Finding>): seq<External> {
    if findings == [] then rows
    else
      var f := findings[|findings| - 1];
      var before := DisputeAll(rows, findings[..|findings| - 1]);
      if Disputes(f.kind) then SetDisputed(before, f.external.id) else before
  }

  // Row i after the first n verdicts of the batch were written.
  function Part(rows: seq<External>, source: Id, mirror: seq<MirrorEntry>, i: nat, n: nat, backed: bool): External
    requires i < |rows|
  {
    if InBatch(rows[i], source) && Place(rows, source, i) < n && RowVerdict(rows, source, mirror, i).Backed? == backed
    then RowAfter(rows, source, mirror, i)
    else rows[i]
  }

  lemma {:induction false} MatchesWritten(rows: seq<External>, source: Id, mirror: seq<MirrorEntry>, n: nat)
    requires UniqueIds(rows) && n <= |Batch(rows, source)|
    ensures var after := MatchAll(rows, MatchesUpTo(Batch(rows, source), mirror, n));
            |after| == |rows| && forall i :: 0 <= i < |rows| ==> after[i] == Part(rows, source, mirror, i, n, true)
  {
    var batch := Batch(rows, source);
    if n > 0 {
      MatchesWritten(rows, source, mirror, n - 1);
      var before := MatchesUpTo(batch, mirror, n - 1);
      var after := MatchAll(rows, MatchesUpTo(batch, mirror, n));
      assert VerdictOf(batch, mirror, n - 1).Backed? ==> MatchesUpTo(batch, mirror, n)[..|before|] == before;
      assert before + [] == before;
      forall i | 0 <= i < |rows|
        ensures |after| == |rows| && after[i] == Part(rows, source, mirror, i, n, true)
      {
        RowWritten(rows, source, mirror, i, n - 1);
      }
    }
  }

  // Which verdict decides row i, and whether the n-th one does.
  lemma {:induction false} RowWritten(rows: seq<External>, source: Id, mirror: seq<MirrorEntry>, i: nat, n: nat)
    requires UniqueIds(rows) && i < |rows| && n < |Batch(rows, source)|
    ensures rows[i].id == Batch(rows, source)[n].id <==> InBatch(rows[i], source) && Place(rows, source, i) == n
    ensures InBatch(rows[i], source) && Place(rows, source, i) == n ==>
              VerdictOf(Batch(rows, source), mirror, n) == RowVerdict(rows, source, mirror, i)
  {
    BatchRow(rows, source, i, n);
    if InBatch(rows[i], source) {
      BatchVerdict(rows, source, mirror, i);
    }
  }

  // The table once all matches are written.
  ghost predicate FirstPass(rows: seq<External>, table: seq<External>, source: Id, mirror: seq<MirrorEntry>) {
    && |table| == |rows|
    && forall i :: 0 <= i < |rows| ==> table[i] == Part(rows, source, mirror, i, |Batch(rows, source)|, true)
  }

  // Row i in the course of the second pass.
  function Passed(rows: seq<External>, table: seq<External>, source: Id, mirror: seq<MirrorEntry>, i: nat, n: nat): External
    requires i < |rows| == |table|
  {
    if InBatch(rows[i], source) && !RowVerdict(rows, source, mirror, i).Backed?
    then Part(rows, source, mirror, i, n, false)
    else table[i]
  }

  lemma DisputeNext(rows: seq<External>, table: seq<External>, source: Id, mirror: seq<MirrorEntry>, i: nat, n: nat)
    requires UniqueIds(rows) && n < |Batch(rows, source)| && i < |rows| == |table|
    requires table[i] == Part(rows, source, mirror, i, |Batch(rows, source)|, true)
    ensures var batch := Batch(rows, source);
            var before := Passed(rows, table, source, mirror, i, n);
            Passed(rows, table, source, mirror, i, n + 1)
            == if DisputesAt(batch, mirror, n) && before.id == batch[n].id then before.(status := Disputed) else before
  {
    RowWritten(rows, source, mirror, i, n);
  }

  function PassedRows(rows: seq<External>, table: seq<External>, source: Id, mirror: seq<MirrorEntry>, n: nat): seq<External>
    requires |rows| == |table|
  {
    seq(|rows|, i requires 0 <= i < |rows| => Passed(rows, table, source, mirror, i, n))
  }

  // Whether the n-th verdict disputes its row.
  predicate DisputesAt(batch: seq<External>, mirror: seq<MirrorEntry>, n: nat)
    requires n < |batch|
  {
    var v := VerdictOf(batch, mirror, n);
    !v.Backed? && Disputes(FindingOf(batch[n], mirror, v).kind)
  }

  lemma {:induction false} PassedStep(rows: seq<External>, table: seq<External>, source: Id, mirror: seq<MirrorEntry>, n: nat)
    requires UniqueIds(rows) && n < |Batch(rows, source)| && FirstPass(rows, table, source, mirror)
    ensures var batch := Batch(rows, source);
            var before := PassedRows(rows, table, source, mirror, n);
            PassedRows(rows, table, source, mirror, n + 1)
            == if DisputesAt(batch, mirror, n) then SetDisputed(before, batch[n].id) else before
  {
    forall i | 0 <= i < |rows|
      ensures var batch := Batch(rows, source);
              var before := Passed(rows, table, source, mirror, i, n);
              Passed(rows, table, source, mirror, i, n + 1)
              == if DisputesAt(batch, mirror, n) && before.id == batch[n].id then before.(status := Disputed) else before
    {
      DisputeNext(rows, table, source, mirror, i, n);
    }
  }

  lemma PassedNothing(rows: seq<External>, table: seq<External>, source: Id, mirror: seq<MirrorEntry>)
    requires FirstPass(rows, table, source, mirror)
    ensures PassedRows(rows, table, source, mirror, 0) == table
  {
    forall i | 0 <= i < |rows|
      ensures Passed(rows, table, source, mirror, i, 0) == table[i]
    {
    }
  }

  lemma DisputesNext(rows: seq<External>, table: seq<External>, source: Id, mirror: seq<MirrorEntry>, n: nat)
    requires UniqueIds(rows) && n < |Batch(rows, source)| && FirstPass(rows, table, source, mirror)
    requires DisputeAll(table, FindingsUpTo(Batch(rows, source), mirror, n)) == PassedRows(rows, table, source, mirror, n)
    ensures DisputeAll(table, FindingsUpTo(Batch(rows, source), mirror, n + 1))
         == PassedRows(rows, table, source, mirror, n + 1)
  {
    PassedStep(rows, table, source, mirror, n);
    FindingsStep(table, Batch(rows, source), mirror, n);
  }

  // Both passes together settle every row.
  lemma {:induction false} DisputesWritten(rows: seq<External>, table: seq<External>, source: Id, mirror: seq<MirrorEntry>, n: nat)
    requires UniqueIds(rows) && n <= |Batch(rows, source)| && FirstPass(rows, table, source, mirror)
    ensures DisputeAll(table, FindingsUpTo(Batch(rows, source), mirror, n)) == PassedRows(rows, table, source, mirror, n)
  {
    if n == 0 {
      PassedNothing(rows, table, source, mirror);
      assert DisputeAll(table, FindingsUpTo(Batch(rows, source), mirror, 0)) == table;
    } else {
      var m := n - 1;
      DisputesWritten(rows, table, source, mirror, m);
      DisputesNext(rows, table, source, mirror, m);
      assert n == m + 1;
    }
  }

  lemma FindingsStep(table: seq<External>, batch: seq<External>, mirror: seq<MirrorEntry>, n: nat)
    requires n < |batch|
    ensures var before := DisputeAll(table, FindingsUpTo(batch, mirror, n));
            DisputeAll(table, FindingsUpTo(batch, mirror, n + 1))
            == if DisputesAt(batch, mirror, n) then SetDisputed(before, batch[n].id) else before
  {
    var v := VerdictOf(batch, mirror, n);
    var findings := FindingsUpTo(batch, mirror, n);
    if v.Backed? {
      assert findings + [] == findings;
    } else {
      DisputeSnoc(table, findings, FindingOf(batch[n], mirror, v));
    }
  }

  lemma DisputeSnoc(rows: seq<External>, findings: seq<Finding>, f: Finding)
    ensures var before := DisputeAll(rows, findings);
            DisputeAll(rows, findings + [f]) == if Disputes(f.kind) then SetDisputed(before, f.external.id) else before
  {
    assert (findings + [f])[..|findings|] == findings;
  }

  lemma RunWritten(rows: seq<External>, source: Id, mirror: seq<MirrorEntry>)
    requires UniqueIds(rows)
    ensures var batch := Batch(rows, source);
            DisputeAll(MatchAll(rows, MatchesUpTo(batch, mirror, |batch|)), FindingsUpTo(batch, mirror, |batch|))
            == RowsAfter(rows, source, mirror)
  {
    var batch := Batch(rows, source);
    var table := MatchAll(rows, MatchesUpTo(batch, mirror, |batch|));
    MatchesWritten(rows, source, mirror, |batch|);
    DisputesWritten(rows, table, source, mirror, |batch|);
    forall i | 0 <= i < |rows| && InBatch(rows[i], source)
      ensures Place(rows, source, i) < |batch|
    {
      PlaceExact(rows, source, i);
    }
  }

  function Found(rows: seq<External>, mirror: seq<MirrorEntry>, source: Id): seq<Finding> {
    FindingsUpTo(Batch(rows, source), mirror, |Batch(rows, source)|)
  }

  function RunOf(rows: seq<External>, mirror: seq<MirrorEntry>, source: Id, id: Id): Run {
    Run(id, source, |MatchesUpTo(Batch(rows, source), mirror, |Batch(rows, source)|)|, |Found(rows, mirror, source)|)
  }

  // ---- The service -----------------------------------------------------------------------

  class ReconStore {
    var sources: set<Id>
    var externals: seq<External>
    var mirror: seq<MirrorEntry>
    var discrepancies: seq<Discrepancy>
    var events: seq<Discrepancy>
    var runs: seq<Run>

    ghost predicate Valid()
      reads this
    {
      UniqueIds(externals)
    }

    constructor ()
      ensures Valid() && externals == [] && mirror == [] && runs == [] && discrepancies == [] && events == []
    {
      sources, externals, mirror, discrepancies, events, runs := {}, [], [], [], [], [];
    }

    // Everything in one database transaction.
    method StartRun(source: Id, id: Id) returns (r: Result<Run, RunFault>)
      requires Valid()
      modifies this
      ensures Valid() && sources == old(sources) && mirror == old(mirror)
      ensures r.Success? <==> source != 0 && source in sources
      ensures r.Failure? ==>
                && unchanged(this)
                && r.error == if source == 0 then SourceRequired else SourceNotFound
      ensures r.Success? ==>
                && externals == RowsAfter(old(externals), source, mirror)
                && r.value == RunOf(old(externals), mirror, source, id)
                && runs == old(runs) + [r.value]
                && discrepancies == old(discrepancies) + Reports(id, Found(old(externals), mirror, source))
                && events == old(events) + Published(id, Found(old(externals), mirror, source))
    {
      if source == 0 {
        return Failure(SourceRequired);
      }
      if source !in sources {
        return Failure(SourceNotFound);
      }
      var batch := Batch(externals, source);
      var matches, findings := MatchNaive(batch, mirror);
      var table := WriteMatches(externals, matches);
      var found, sent;
      table, found, sent := WriteFindings(table, id, findings);
      RunWritten(externals, source, mirror);
      IdsKept(externals, source, mirror);
      var run := Run(id, source, |matches|, |findings|);
      externals, runs := table, runs + [run];
      discrepancies, events := discrepancies + found, events + sent;
      return Success(run);
    }
  }

  lemma IdsKept(rows: seq<External>, source: Id, mirror: seq<MirrorEntry>)
    requires UniqueIds(rows)
    ensures UniqueIds(RowsAfter(rows, source, mirror))
  {
    forall i | 0 <= i < |rows|
      ensures RowsAfter(rows, source, mirror)[i].id == rows[i].id
    {
    }
  }

  method WriteMatches(rows: seq<External>, matches: seq<MatchPair>) returns (table: seq<External>)
    ensures table == MatchAll(rows, matches)
  {
    table := rows;
    for n := 0 to |matches|
      invariant table == MatchAll(rows, matches[..n])
    {
      assert matches[..n + 1][..n] == matches[..n];
      table := SetMatched(table, matches[n].external, matches[n].entry);
    }
    assert matches[..|matches|] == matches;
  }

  // Disputes the row, records the discrepancy, announces it unless it is a
  // duplicate.
  method WriteFindings(rows: seq<External>, run: Id, findings: seq<Finding>)
    returns (table: seq<External>, found: seq<Discrepancy>, sent: seq<Discrepancy>)
    ensures table == DisputeAll(rows, findings)
    ensures found == Reports(run, findings) && sent == Published(run, findings)
  {
    table, found, sent := rows, [], [];
    for n := 0 to |findings|
      invariant table == DisputeAll(rows, findings[..n])
      invariant found == Reports(run, findings[..n]) && sent == Published(run, findings[..n])
    {
      var f := findings[n];
      assert findings[..n + 1][..n] == findings[..n];
      if f.kind == AmountMismatch || f.kind == Duplicate {
        table := SetDisputed(table, f.external.id);
      }
      found := found + [Discrepancy(run, f)];
      if f.kind != Duplicate {
        sent := sent + [Discrepancy(run, f)];
      } else {
        assert sent + [] == sent;
      }
    }
    assert findings[..|findings|] == findings;
  }

  function Reports(run: Id, findings: seq<Finding>): seq<Discrepancy> {
    seq(|findings|, i requires 0 <= i < |findings| => Discrepancy(run, findings[i]))
  }

  // Duplicates have no event.
  function Published(run: Id, findings: seq<Finding>): seq<Discrepancy> {
    if findings == [] then []
    else
      var f := findings[|findings| - 1];
      Published(run, findings[..|findings| - 1]) + if f.kind != Duplicate then [Discrepancy(run, f)] else []
  }

  // ---- A run, column by column --------------------------------------------------------------

  // Row i is the first open row of the source with its reference.
  predicate LeadsOpen(rows: seq<External>, source: Id, i: nat)
    requires i < |rows|
  {
    forall j :: 0 <= j < i && rows[j].source == source && rows[j].status == Unmatched ==> rows[j].ref != rows[i].ref
  }

  // An open row is matched exactly when it leads its reference and some entry
  // backs it, and then to the oldest one; it stays open exactly when it leads
  // and the mirror does not know its reference; it is disputed otherwise.
  // Nothing else about it changes, and no other row does.
  lemma RunExact(rows: seq<External>, source: Id, mirror: seq<MirrorEntry>, i: nat)
    requires i < |rows|
    ensures |RowsAfter(rows, source, mirror)| == |rows|
    ensures var x, after := rows[i], RowsAfter(rows, source, mirror)[i];
            if x.source != source || x.status != Unmatched then after == x
            else if !LeadsOpen(rows, source, i) then after == x.(status := Disputed)
            else if exists e :: OldestBacking(mirror, e, x) then
              exists e :: OldestBacking(mirror, e, x) && after == x.(status := Matched, entry := Some(mirror[e].id))
            else if exists e :: 0 <= e < |mirror| && mirror[e].reference == x.ref then after == x.(status := Disputed)
            else after == x
  {
    var x := rows[i];
    if InBatch(x, source) {
      PlaceExact(rows, source, i);
      BatchVerdict(rows, source, mirror, i);
      VerdictExact(Batch(rows, source), mirror, Place(rows, source, i));
      assert RepeatsEarlier(rows, source, i) <==> !LeadsOpen(rows, source, i);
    }
  }

  // A run counts the rows it matched, and every other open row of its source.
  lemma CountsExact(rows: seq<External>, mirror: seq<MirrorEntry>, source: Id, id: Id)
    ensures var run := RunOf(rows, mirror, source, id);
            && run.id == id && run.source == source
            && run.matched == BecameMatched(rows, RowsAfter(rows, source, mirror), |rows|)
            && run.matched + run.unmatched == OpenRows(rows, source, |rows|)
  {
    var batch := Batch(rows, source);
    var matches, findings := MatchesUpTo(batch, mirror, |batch|), FindingsUpTo(batch, mirror, |batch|);
    Partition(batch, mirror, |batch|);
    assert batch[..|batch|] == batch;
    assert |multiset(MatchedIds(matches)) + multiset(FoundIds(findings))| == |multiset(Ids(batch))|;
    MatchedSoFar(rows, mirror, source, |rows|);
    OpenSoFar(rows, source, |rows|);
    assert rows[..|rows|] == rows;
  }

  // How many of the first n rows a run matched.
  function BecameMatched(rows: seq<External>, after: seq<External>, n: nat): nat
    requires n <= |rows| == |after|
  {
    if n == 0 then 0
    else BecameMatched(rows, after, n - 1)
         + if rows[n - 1].status != Matched && after[n - 1].status == Matched then 1 else 0
  }

  // How many of them were open in the source.
  function OpenRows(rows: seq<External>, source: Id, n: nat): nat
    requires n <= |rows|
  {
    if n == 0 then 0
    else OpenRows(rows, source, n - 1) + if rows[n - 1].source == source && rows[n - 1].status == Unmatched then 1 else 0
  }

  lemma {:induction false} OpenSoFar(rows: seq<External>, source: Id, n: nat)
    requires n <= |rows|
    ensures Place(rows, source, n) == OpenRows(rows, source, n)
  {
    if n > 0 {
      OpenSoFar(rows, source, n - 1);
      assert rows[..n][..n - 1] == rows[..n - 1];
    }
  }

  lemma PlaceNext(rows: seq<External>, source: Id, i: nat)
    requires i < |rows|
    ensures Place(rows, source, i + 1) == Place(rows, source, i) + if InBatch(rows[i], source) then 1 else 0
    ensures Place(rows, source, i + 1) <= |Batch(rows, source)|
  {
    assert rows[..i + 1][..i] == rows[..i];
    PlaceGrows(rows, source, i + 1, |rows|);
    assert rows[..|rows|] == rows;
  }

  lemma RowMatched(rows: seq<External>, mirror: seq<MirrorEntry>, source: Id, i: nat)
    requires i < |rows|
    ensures rows[i].status != Matched && RowAfter(rows, source, mirror, i).status == Matched
            <==> InBatch(rows[i], source) && RowVerdict(rows, source, mirror, i).Backed?
  {
  }

  lemma OneMoreMatch(batch: seq<External>, mirror: seq<MirrorEntry>, n: nat)
    requires n < |batch|
    ensures |MatchesUpTo(batch, mirror, n + 1)|
         == |MatchesUpTo(batch, mirror, n)| + if VerdictOf(batch, mirror, n).Backed? then 1 else 0
  {
  }

  lemma {:induction false} MatchedSoFar(rows: seq<External>, mirror: seq<MirrorEntry>, source: Id, n: nat)
    requires n <= |rows|
    ensures Place(rows, source, n) <= |Batch(rows, source)|
    ensures BecameMatched(rows, RowsAfter(rows, source, mirror), n)
         == |MatchesUpTo(Batch(rows, source), mirror, Place(rows, source, n))|
  {
    if n > 0 {
      var i := n - 1;
      MatchedSoFar(rows, mirror, source, i);
      PlaceNext(rows, source, i);
      RowMatched(rows, mirror, source, i);
      if InBatch(rows[i], source) {
        BatchVerdict(rows, source, mirror, i);
        OneMoreMatch(Batch(rows, source), mirror, Place(rows, source, i));
      }
    }
  }

  // Every finding is recorded, in order, and announced, but for the duplicates.
  lemma ReportsExact(run: Id, findings: seq<Finding>)
    ensures |Reports(run, findings)| == |findings|
    ensures forall i :: 0 <= i < |findings| ==> Reports(run, findings)[i].run == run && Reports(run, findings)[i].finding == findings[i]
  {
  }

  lemma {:induction false} PublishedExact(run: Id, findings: seq<Finding>, f: Finding)
    ensures Discrepancy(run, f) in Published(run, findings) <==> f in findings && f.kind != Duplicate
  {
    if findings != [] {
      PublishedExact(run, findings[..|findings| - 1], f);
      assert findings == findings[..|findings| - 1] + [findings[|findings| - 1]];
    }
  }

  // ---- Repeated runs ------------------------------------------------------------------------

  // Settled rows are never touched again.
  lemma SettledStays(rows: seq<External>, source: Id, mirror: seq<MirrorEntry>, i: nat)
    requires i < |rows|
    ensures |RowsAfter(rows, source, mirror)| == |rows|
    ensures rows[i].status != Unmatched || rows[i].source != source ==> RowsAfter(rows, source, mirror)[i] == rows[i]
  {
  }

  // What happens to the table over time: runs over some source with the
  // mirror of their day, and imports of new rows.
  datatype Step = RunOn(source: Id, mirror: seq<MirrorEntry>) | Import(rows: seq<External>)

  function After(rows: seq<External>, s: Step): seq<External> {
    match s
    case RunOn(source, mirror) => RowsAfter(rows, source, mirror)
    case Import(more) => rows + more
  }

  function AfterAll(rows: seq<External>, steps: seq<Step>): seq<External> {
    if steps == [] then rows else After(AfterAll(rows, steps[..|steps| - 1]), steps[|steps| - 1])
  }

  // Matched and disputed rows never return to unmatched, nor change in any
  // other way, whatever is run and imported afterwards.
  lemma {:induction false} SettledForever(rows: seq<External>, steps: seq<Step>, i: nat)
    requires i < |rows|
    ensures i < |AfterAll(rows, steps)|
    ensures rows[i].status != Unmatched ==> AfterAll(rows, steps)[i] == rows[i]
  {
    if steps != [] {
      var before := AfterAll(rows, steps[..|steps| - 1]);
      SettledForever(rows, steps[..|steps| - 1], i);
      match steps[|steps| - 1]
      case RunOn(source, mirror) => SettledStays(before, source, mirror, i);
      case Import(_) =>
    }
  }

  // Rows still open after a run: each was the first with its reference, and
  // the mirror does not know the reference.
  lemma OpenAfter(rows: seq<External>, source: Id, mirror: seq<MirrorEntry>, i: nat)
    requires i < |rows| && InBatch(RowsAfter(rows, source, mirror)[i], source)
    ensures InBatch(rows[i], source) && RowsAfter(rows, source, mirror)[i] == rows[i]
    ensures !RepeatsEarlier(rows, source, i)
    ensures forall e :: e in mirror ==> e.reference != rows[i].ref
  {
    forall e | e in mirror
      ensures e.reference != rows[i].ref
    {
      var j :| 0 <= j < |mirror| && mirror[j] == e;
      assert !SameRef(rows[i], mirror[j]);
    }
  }

  // After a run no two open rows of the source share a reference.
  lemma OpenDistinct(rows: seq<External>, source: Id, mirror: seq<MirrorEntry>, i: nat, j: nat)
    requires i < j < |rows|
    requires InBatch(RowsAfter(rows, source, mirror)[i], source) && InBatch(RowsAfter(rows, source, mirror)[j], source)
    ensures rows[i].ref != rows[j].ref
  {
    OpenAfter(rows, source, mirror, i);
    OpenAfter(rows, source, mirror, j);
  }

  // Every row a second run looks at is missing again.
  lemma SecondVerdict(rows: seq<External>, source: Id, mirror: seq<MirrorEntry>, i: nat)
    requires i < |rows| && InBatch(RowsAfter(rows, source, mirror)[i], source)
    ensures RowVerdict(RowsAfter(rows, source, mirror), source, mirror, i) == Absent
  {
    var after := RowsAfter(rows, source, mirror);
    OpenAfter(rows, source, mirror, i);
    forall j | 0 <= j < i && InBatch(after[j], source)
      ensures after[j].ref != after[i].ref
    {
      OpenAfter(rows, source, mirror, j);
      OpenDistinct(rows, source, mirror, j, i);
    }
  }

  // With nothing new to compare, a second run changes no row ...
  lemma Fixpoint(rows: seq<External>, source: Id, mirror: seq<MirrorEntry>)
    ensures var after := RowsAfter(rows, source, mirror);
            RowsAfter(after, source, mirror) == after
  {
    var after := RowsAfter(rows, source, mirror);
    forall i | 0 <= i < |after|
      ensures RowAfter(after, source, mirror, i) == after[i]
    {
      if InBatch(after[i], source) {
        SecondVerdict(rows, source, mirror, i);
      }
    }
  }

  lemma {:induction false} AllAbsent(batch: seq<External>, mirror: seq<MirrorEntry>, n: nat)
    requires n <= |batch| && forall m :: 0 <= m < n ==> VerdictOf(batch, mirror, m) == Absent
    ensures MatchesUpTo(batch, mirror, n) == []
    ensures FindingsUpTo(batch, mirror, n) == seq(n, m requires 0 <= m < n => Finding(MissingInternal, batch[m], None))
  {
    if n > 0 {
      AllAbsent(batch, mirror, n - 1);
    }
  }

  // ... matches nothing, and reports exactly the open rows as missing.
  lemma SecondReport(rows: seq<External>, source: Id, mirror: seq<MirrorEntry>)
    ensures var batch := Batch(RowsAfter(rows, source, mirror), source);
            && MatchesUpTo(batch, mirror, |batch|) == []
            && FindingsUpTo(batch, mirror, |batch|)
               == seq(|batch|, m requires 0 <= m < |batch| => Finding(MissingInternal, batch[m], None))
  {
    var after := RowsAfter(rows, source, mirror);
    var batch := Batch(after, source);
    forall m | 0 <= m < |batch|
      ensures VerdictOf(batch, mirror, m) == Absent
    {
      var i := PlaceSource(after, source, m);
      BatchVerdict(after, source, mirror, i);
      SecondVerdict(rows, source, mirror, i);
    }
    AllAbsent(batch, mirror, |batch|);
  }

  // ---- Entries across runs --------------------------------------------------------------------

  predicate Assigned(x: External, id: EntryId) {
    x.status == Matched && x.entry == Some(id)
  }

  // Some row has been matched to this entry.
  predicate Used(rows: seq<External>, id: EntryId) {
    exists j :: 0 <= j < |rows| && Assigned(rows[j], id)
  }

  predicate Opens(rows: seq<External>, source: Id, mirror: seq<MirrorEntry>, i: nat, id: EntryId)
    requires i < |rows|
  {
    && InBatch(rows[i], source) && !RepeatsEarlier(rows, source, i)
    && var e := FirstCompatible(mirror, rows[i]);
       e.Some? && mirror[e.value].id == id
  }

  // A run matches an open row to an entry if and only if the row is the first
  // open one with its reference and that entry is the oldest compatible one.
  // What earlier runs have matched plays no part.
  lemma AssignsExact(rows: seq<External>, source: Id, mirror: seq<MirrorEntry>, i: nat, id: EntryId)
    requires i < |rows| && InBatch(rows[i], source)
    ensures Assigned(RowsAfter(rows, source, mirror)[i], id) <==> Opens(rows, source, mirror, i, id)
  {
  }

  // A run uses an entry again.
  ghost predicate Reuses(rows: seq<External>, source: Id, mirror: seq<MirrorEntry>, id: EntryId) {
    Used(rows, id)
    && exists i :: 0 <= i < |rows| && InBatch(rows[i], source) && Assigned(RowsAfter(rows, source, mirror)[i], id)
  }

  // Exactly when an entry that already backs a row is given to another one.
  lemma ReuseExact(rows: seq<External>, source: Id, mirror: seq<MirrorEntry>, id: EntryId)
    ensures Reuses(rows, source, mirror, id) <==> Used(rows, id) && exists i :: 0 <= i < |rows| && Opens(rows, source, mirror, i, id)
  {
    forall i: nat | i < |rows| && InBatch(rows[i], source)
      ensures Assigned(RowsAfter(rows, source, mirror)[i], id) <==> Opens(rows, source, mirror, i, id)
    {
      AssignsExact(rows, source, mirror, i, id);
    }
  }

  // An import after a run is safe when it avoids the references of the
  // entries used so far: the next run then gives no entry to a second row.
  lemma ImportSafe(rows: seq<External>, imported: seq<External>, source: Id, mirror: seq<MirrorEntry>, id: EntryId)
    requires var after := RowsAfter(rows, source, mirror);
             forall x, e :: x in imported && e in mirror && Used(after + imported, e.id) ==> x.ref != e.reference
    ensures !Reuses(RowsAfter(rows, source, mirror) + imported, source, mirror, id)
  {
    var after := RowsAfter(rows, source, mirror);
    ReuseExact(after + imported, source, mirror, id);
    forall i: nat | i < |after + imported| && Opens(after + imported, source, mirror, i, id)
      ensures !Used(after + imported, id)
    {
      var e := mirror[FirstCompatible(mirror, (after + imported)[i]).value];
      assert e in mirror && e.reference == (after + imported)[i].ref;
      if i < |after| {
        OpenAfter(rows, source, mirror, i);
      } else {
        assert (after + imported)[i] in imported;
      }
    }
  }

  // One import that does not avoid them is enough, however far apart the two
  // rows are: a row that repeats a matched reference takes the same entry.
  lemma ReusedAcrossRuns(rows: seq<External>, source: Id, mirror: seq<MirrorEntry>, i: nat, y: External)
    requires i < |rows| && InBatch(rows[i], source) && RowsAfter(rows, source, mirror)[i].status == Matched
    requires InBatch(y, source) && y.ref == rows[i].ref && y.asset == rows[i].asset && y.amount == rows[i].amount
    requires y.direction == rows[i].direction
    ensures var after := RowsAfter(rows, source, mirror);
            && after[i].entry.Some?
            && Reuses(after + [y], source, mirror, after[i].entry.value)
            && RowsAfter(after + [y], source, mirror)[|after|].entry == after[i].entry
  {
    var after := RowsAfter(rows, source, mirror);
    var e := FirstCompatible(mirror, rows[i]).value;
    SameFirst(mirror, rows[i], y);
    forall j: nat | j < |after| && InBatch(after[j], source)
      ensures after[j].ref != y.ref
    {
      OpenAfter(rows, source, mirror, j);
      assert mirror[e] in mirror;
    }
    assert !RepeatsEarlier(after + [y], source, |after|);
    AssignsExact(after + [y], source, mirror, |after|, mirror[e].id);
    assert Assigned((after + [y])[i], mirror[e].id);
  }

  // Only reference, asset, amount and direction decide compatibility.
  lemma SameFirst(mirror: seq<MirrorEntry>, x: External, y: External)
    requires x.ref == y.ref && x.asset == y.asset && x.amount == y.amount && x.direction == y.direction
    ensures FirstCompatible(mirror, x) == FirstCompatible(mirror, y)
  {
    var r := FirstCompatible(mirror, x);
    assert forall e :: Compatible(x, e) <==> Compatible(y, e);
    FirstIs(mirror, y, r);
  }
}
