// The reconciliation matcher: services/reconciliation/internal/domain/
// matcher.go:55-130.
module Matchers {
  import opened Wrappers
  import opened Domain
  import opened Mirrors

  datatype MatchStatus = Unmatched | Matched | Disputed

  datatype External = External(
    id: Id,
    source: Id,
    ref: string,
    amount: int,
    asset: string,
    direction: string,
    status: MatchStatus,
    entry: Option<EntryId>)

  datatype MatchPair = MatchPair(external: Id, entry: EntryId)

  datatype Kind = MissingInternal | AmountMismatch | Duplicate

  datatype Finding = Finding(kind: Kind, external: External, entry: Option<MirrorEntry>)

  // A blank external direction matches either side.
  predicate DirectionMatches(external: string, mirror: string) {
    external == "" || external == mirror
  }

  predicate SameRef(x: External, e: MirrorEntry) {
    e.reference == x.ref
  }

  predicate Compatible(x: External, e: MirrorEntry) {
    SameRef(x, e) && e.amount == x.amount && e.asset == x.asset && DirectionMatches(x.direction, e.direction)
  }

  // ---- The simple specification --------------------------------------------------

  // The oldest entry accepted by p.
  function FirstEntry(mirror: seq<MirrorEntry>, p: MirrorEntry -> bool): (r: Option<nat>)
    ensures r.Some? ==> r.value < |mirror| && p(mirror[r.value]) && forall j :: 0 <= j < r.value ==> !p(mirror[j])
    ensures r.None? ==> forall j :: 0 <= j < |mirror| ==> !p(mirror[j])
  {
    if mirror == [] then None
    else
      var init := FirstEntry(mirror[..|mirror| - 1], p);
      if init.Some? then init
      else if p(mirror[|mirror| - 1]) then Some(|mirror| - 1)
      else None
  }

  function FirstCompatible(mirror: seq<MirrorEntry>, x: External): Option<nat> {
    FirstEntry(mirror, e => Compatible(x, e))
  }

  function FirstSameRef(mirror: seq<MirrorEntry>, x: External): Option<nat> {
    FirstEntry(mirror, e => SameRef(x, e))
  }

  datatype Verdict = Backed(entry: nat) | Mismatched(entry: nat) | Absent | Repeated

  predicate IsRepeat(externals: seq<External>, n: nat)
    requires n < |externals|
  {
    exists m :: 0 <= m < n && externals[m].ref == externals[n].ref
  }

  // What becomes of row n, by itself: no consumed entries, no running state.
  function VerdictOf(externals: seq<External>, mirror: seq<MirrorEntry>, n: nat): (v: Verdict)
    requires n < |externals|
    ensures v.Backed? || v.Mismatched? ==> v.entry < |mirror|
  {
    var x := externals[n];
    if IsRepeat(externals, n) then Repeated
    else if FirstCompatible(mirror, x).Some? then Backed(FirstCompatible(mirror, x).value)
    else if FirstSameRef(mirror, x).Some? then Mismatched(FirstSameRef(mirror, x).value)
    else Absent
  }

  function MatchesUpTo(externals: seq<External>, mirror: seq<MirrorEntry>, n: nat): seq<MatchPair>
    requires n <= |externals|
  {
    if n == 0 then []
    else
      var v := VerdictOf(externals, mirror, n - 1);
      MatchesUpTo(externals, mirror, n - 1)
      + if v.Backed? then [MatchPair(externals[n - 1].id, mirror[v.entry].id)] else []
  }

  function FindingOf(x: External, mirror: seq<MirrorEntry>, v: Verdict): Finding
    requires !v.Backed? && (v.Mismatched? ==> v.entry < |mirror|)
  {
    match v
    case Mismatched(i) => Finding(AmountMismatch, x, Some(mirror[i]))
    case Repeated => Finding(Duplicate, x, None)
    case Absent => Finding(MissingInternal, x, None)
  }

  function FindingsUpTo(externals: seq<External>, mirror: seq<MirrorEntry>, n: nat): seq<Finding>
    requires n <= |externals|
  {
    if n == 0 then []
    else
      var v := VerdictOf(externals, mirror, n - 1);
      FindingsUpTo(externals, mirror, n - 1)
      + if v.Backed? then [] else [FindingOf(externals[n - 1], mirror, v)]
  }

  // ---- The index by reference --------------------------------------------------------

  function Positions(mirror: seq<MirrorEntry>, ref: string): seq<nat> {
    if mirror == [] then []
    else
      var last := |mirror| - 1;
      Positions(mirror[..last], ref) + if mirror[last].reference == ref then [last] else []
  }

  lemma {:induction false} PositionsExact(mirror: seq<MirrorEntry>, ref: string)
    ensures var ps := Positions(mirror, ref);
            && (forall a :: 0 <= a < |ps| ==> ps[a] < |mirror| && mirror[ps[a]].reference == ref)
            && (forall a, b :: 0 <= a < b < |ps| ==> ps[a] < ps[b])
            && (forall i :: 0 <= i < |mirror| && mirror[i].reference == ref ==> exists a :: 0 <= a < |ps| && ps[a] == i)
  {
    if mirror != [] {
      var last := |mirror| - 1;
      var ps, init := Positions(mirror, ref), Positions(mirror[..last], ref);
      PositionsExact(mirror[..last], ref);
      forall i | 0 <= i < |mirror| && mirror[i].reference == ref
        ensures exists a :: 0 <= a < |ps| && ps[a] == i
      {
        if i < last {
          assert mirror[..last][i].reference == ref;
          var a :| 0 <= a < |init| && init[a] == i;
          assert ps[a] == i;
        } else {
          assert ps[|init|] == last;
        }
      }
    }
  }

  function Lookup(byRef: map<string, seq<nat>>, ref: string): seq<nat> {
    if ref in byRef then byRef[ref] else []
  }

  method IndexByRef(mirror: seq<MirrorEntry>) returns (byRef: map<string, seq<nat>>)
    ensures forall ref :: Lookup(byRef, ref) == Positions(mirror, ref)
  {
    byRef := map[];
    for i := 0 to |mirror|
      invariant forall ref :: Lookup(byRef, ref) == Positions(mirror[..i], ref)
    {
      var ref := mirror[i].reference;
      assert mirror[..i + 1][..i] == mirror[..i];
      byRef := byRef[ref := Lookup(byRef, ref) + [i]];
      forall r
        ensures Lookup(byRef, r) == Positions(mirror[..i + 1], r)
      {
        assert Positions(mirror[..i], r) + [] == Positions(mirror[..i], r);
      }
    }
    assert mirror[..|mirror|] == mirror;
  }

  // ---- Scanning the candidates ----------------------------------------------------------

  method Scan(x: External, mirror: seq<MirrorEntry>, candidates: seq<nat>, consumed: array<bool>)
    returns (matched: Option<nat>, firstFree: Option<nat>)
    requires candidates == Positions(mirror, x.ref) && consumed.Length == |mirror|
    // Nothing with this reference has been used: the test never fires.
    requires forall i :: 0 <= i < |mirror| && SameRef(x, mirror[i]) ==> !consumed[i]
    ensures matched == FirstCompatible(mirror, x) && firstFree == FirstSameRef(mirror, x)
  {
    PositionsExact(mirror, x.ref);
    matched, firstFree := None, None;
    var c := 0;
    while c < |candidates| && matched.None?
      invariant c <= |candidates|
      invariant matched.None? ==> forall a :: 0 <= a < c ==> !Compatible(x, mirror[candidates[a]])
      invariant matched.Some? ==>
                  && 0 < c && matched.value == candidates[c - 1] && Compatible(x, mirror[matched.value])
                  && forall a :: 0 <= a < c - 1 ==> !Compatible(x, mirror[candidates[a]])
      invariant firstFree == if c == 0 then None else Some(candidates[0])
      decreases |candidates| - c
    {
      var i := candidates[c];
      if !consumed[i] {
        if firstFree.None? {
          firstFree := Some(i);
        }
        if mirror[i].amount == x.amount && mirror[i].asset == x.asset && DirectionMatches(x.direction, mirror[i].direction) {
          matched := Some(i);
        }
      }
      c := c + 1;
    }
    ScanDone(x, mirror, candidates, matched, firstFree, c);
  }

  lemma {:induction false} ScanDone(x: External, mirror: seq<MirrorEntry>, candidates: seq<nat>, matched: Option<nat>, firstFree: Option<nat>, c: nat)
    requires candidates == Positions(mirror, x.ref) && c <= |candidates|
    requires forall a :: 0 <= a < |candidates| ==> candidates[a] < |mirror|
    requires matched.None? ==> c == |candidates| && forall a :: 0 <= a < c ==> !Compatible(x, mirror[candidates[a]])
    requires matched.Some? ==>
               && 0 < c && matched.value == candidates[c - 1] && Compatible(x, mirror[matched.value])
               && forall a :: 0 <= a < c - 1 ==> !Compatible(x, mirror[candidates[a]])
    requires firstFree == if c == 0 then None else Some(candidates[0])
    ensures matched == FirstCompatible(mirror, x)
    ensures firstFree == FirstSameRef(mirror, x)
  {
    ScanFirst(x, mirror, candidates, firstFree, c);
    if matched.Some? {
      CandidatesOrdered(mirror, x.ref, c - 1);
      NoneBefore(x, mirror, candidates, matched.value);
      FirstIs(mirror, x, matched);
    } else {
      NoneBefore(x, mirror, candidates, |mirror|);
      FirstIs(mirror, x, None);
    }
  }

  lemma FirstIs(mirror: seq<MirrorEntry>, x: External, r: Option<nat>)
    requires r.Some? ==> r.value < |mirror| && Compatible(x, mirror[r.value])
    requires forall j :: 0 <= j < (if r.Some? then r.value else |mirror|) ==> !Compatible(x, mirror[j])
    ensures FirstCompatible(mirror, x) == r
  {
    var first := FirstCompatible(mirror, x);
    if first.Some? {
      assert Compatible(x, mirror[first.value]);
    }
  }

  lemma CandidatesOrdered(mirror: seq<MirrorEntry>, ref: string, c: nat)
    requires c < |Positions(mirror, ref)|
    ensures forall a :: 0 <= a < |Positions(mirror, ref)| && Positions(mirror, ref)[a] < Positions(mirror, ref)[c] ==> a < c
  {
    PositionsExact(mirror, ref);
  }

  lemma {:induction false} NoneBefore(x: External, mirror: seq<MirrorEntry>, candidates: seq<nat>, limit: nat)
    requires candidates == Positions(mirror, x.ref) && limit <= |mirror|
    requires forall a :: 0 <= a < |candidates| ==> candidates[a] < |mirror|
    requires forall a :: 0 <= a < |candidates| && candidates[a] < limit ==> !Compatible(x, mirror[candidates[a]])
    ensures forall j :: 0 <= j < limit ==> !Compatible(x, mirror[j])
  {
    forall j: nat | j < limit
      ensures !Compatible(x, mirror[j])
    {
      if SameRef(x, mirror[j]) {
        PositionsExact(mirror, x.ref);
        var a :| 0 <= a < |candidates| && candidates[a] == j;
      }
    }
  }

  lemma ScanFirst(x: External, mirror: seq<MirrorEntry>, candidates: seq<nat>, firstFree: Option<nat>, c: nat)
    requires candidates == Positions(mirror, x.ref) && c <= |candidates| && (c == 0 ==> candidates == [])
    requires firstFree == if c == 0 then None else Some(candidates[0])
    ensures firstFree == FirstSameRef(mirror, x)
  {
    PositionsExact(mirror, x.ref);
    var same := FirstSameRef(mirror, x);
    if same.Some? {
      var b :| 0 <= b < |candidates| && candidates[b] == same.value;
      assert candidates[0] <= candidates[b];
      assert SameRef(x, mirror[candidates[0]]);
    }
  }

  // ---- The matcher ------------------------------------------------------------------------

  // Entries used by the first n rows.
  predicate UsedBy(externals: seq<External>, mirror: seq<MirrorEntry>, n: nat, i: nat)
    requires n <= |externals|
  {
    exists m :: 0 <= m < n && VerdictOf(externals, mirror, m) == Backed(i)
  }

  lemma UsedMeansRepeat(externals: seq<External>, mirror: seq<MirrorEntry>, n: nat, i: nat)
    requires n < |externals| && i < |mirror| && UsedBy(externals, mirror, n, i)
    requires SameRef(externals[n], mirror[i])
    ensures IsRepeat(externals, n)
  {
    var m :| 0 <= m < n && VerdictOf(externals, mirror, m) == Backed(i);
    assert externals[m].ref == externals[n].ref;
  }

  // One row: the duplicate guard, then its candidates.
  method Judge(externals: seq<External>, mirror: seq<MirrorEntry>, n: nat, seen: bool, candidates: seq<nat>, consumed: array<bool>)
    returns (v: Verdict)
    requires n < |externals| && seen == IsRepeat(externals, n)
    requires candidates == Positions(mirror, externals[n].ref) && consumed.Length == |mirror|
    requires !seen ==> forall i :: 0 <= i < |mirror| && SameRef(externals[n], mirror[i]) ==> !consumed[i]
    ensures v == VerdictOf(externals, mirror, n)
  {
    if seen {
      return Repeated;
    }
    var matched, firstFree := Scan(externals[n], mirror, candidates, consumed);
    if matched.Some? {
      return Backed(matched.value);
    } else if firstFree.Some? {
      return Mismatched(firstFree.value);
    } else {
      return Absent;
    }
  }

  // The entries and the references that the first n rows have used up.
  function UsedUpTo(externals: seq<External>, mirror: seq<MirrorEntry>, n: nat): set<nat>
    requires n <= |externals|
  {
    if n == 0 then {}
    else
      var v := VerdictOf(externals, mirror, n - 1);
      UsedUpTo(externals, mirror, n - 1) + if v.Backed? then {v.entry} else {}
  }

  function RefsUpTo(externals: seq<External>, n: nat): set<string>
    requires n <= |externals|
  {
    if n == 0 then {} else RefsUpTo(externals, n - 1) + {externals[n - 1].ref}
  }

  lemma {:induction false} UsedExact(externals: seq<External>, mirror: seq<MirrorEntry>, n: nat, i: nat)
    requires n <= |externals|
    ensures i in UsedUpTo(externals, mirror, n) <==> UsedBy(externals, mirror, n, i)
  {
    if n > 0 {
      UsedExact(externals, mirror, n - 1, i);
    }
  }

  lemma {:induction false} RefsExact(externals: seq<External>, n: nat, ref: string)
    requires n <= |externals|
    ensures ref in RefsUpTo(externals, n) <==> exists m :: 0 <= m < n && externals[m].ref == ref
  {
    if n > 0 {
      RefsExact(externals, n - 1, ref);
    }
  }

  // What the variables of the loop hold after n rows.
  ghost predicate Passing(externals: seq<External>, mirror: seq<MirrorEntry>, n: nat, seen: set<string>, used: seq<bool>,
                          matches: seq<MatchPair>, findings: seq<Finding>)
    requires n <= |externals|
  {
    && seen == RefsUpTo(externals, n)
    && |used| == |mirror| && (forall i :: 0 <= i < |mirror| ==> (used[i] <==> i in UsedUpTo(externals, mirror, n)))
    && matches == MatchesUpTo(externals, mirror, n) && findings == FindingsUpTo(externals, mirror, n)
  }

  lemma FreeEntries(externals: seq<External>, mirror: seq<MirrorEntry>, n: nat)
    requires n < |externals|
    ensures externals[n].ref in RefsUpTo(externals, n) <==> IsRepeat(externals, n)
    ensures externals[n].ref !in RefsUpTo(externals, n) ==>
              forall i: nat :: i < |mirror| && SameRef(externals[n], mirror[i]) ==> i !in UsedUpTo(externals, mirror, n)
  {
    RefsExact(externals, n, externals[n].ref);
    forall i: nat | i < |mirror| && SameRef(externals[n], mirror[i]) && i in UsedUpTo(externals, mirror, n)
      ensures IsRepeat(externals, n)
    {
      UsedExact(externals, mirror, n, i);
      UsedMeansRepeat(externals, mirror, n, i);
    }
  }

  lemma PassingNext(externals: seq<External>, mirror: seq<MirrorEntry>, n: nat, v: Verdict, seen: set<string>, used: seq<bool>,
                    matches: seq<MatchPair>, findings: seq<Finding>)
    requires n < |externals| && v == VerdictOf(externals, mirror, n)
    requires Passing(externals, mirror, n, seen, used, matches, findings)
    ensures var x := externals[n];
            Passing(externals, mirror, n + 1, seen + {x.ref}, if v.Backed? then used[v.entry := true] else used,
                    if v.Backed? then matches + [MatchPair(x.id, mirror[v.entry].id)] else matches,
                    if v.Backed? then findings else findings + [FindingOf(x, mirror, v)])
  {
    ResultNext(externals, mirror, n, v);
  }

  // One turn of the loop.
  method Turn(externals: seq<External>, mirror: seq<MirrorEntry>, n: nat, seenRef: set<string>, candidates: seq<nat>,
              consumed: array<bool>, matches: seq<MatchPair>, findings: seq<Finding>)
    returns (matches': seq<MatchPair>, findings': seq<Finding>)
    requires n < |externals| && candidates == Positions(mirror, externals[n].ref)
    requires Passing(externals, mirror, n, seenRef, consumed[..], matches, findings)
    modifies consumed
    ensures Passing(externals, mirror, n + 1, seenRef + {externals[n].ref}, consumed[..], matches', findings')
  {
    var x := externals[n];
    FreeEntries(externals, mirror, n);
    var v := Judge(externals, mirror, n, x.ref in seenRef, candidates, consumed);
    PassingNext(externals, mirror, n, v, seenRef, consumed[..], matches, findings);
    matches', findings' := Note(x, mirror, v, matches, findings);
    if v.Backed? {
      consumed[v.entry] := true;
    }
  }

  method MatchNaive(externals: seq<External>, mirror: seq<MirrorEntry>)
    returns (matches: seq<MatchPair>, findings: seq<Finding>)
    ensures matches == MatchesUpTo(externals, mirror, |externals|)
    ensures findings == FindingsUpTo(externals, mirror, |externals|)
    ensures ResultRight(externals, mirror, matches, findings)
  {
    var byRef := IndexByRef(mirror);
    var consumed := new bool[|mirror|](_ => false);
    var seenRef: set<string> := {};
    matches, findings := [], [];
    for n := 0 to |externals|
      invariant Passing(externals, mirror, n, seenRef, consumed[..], matches, findings)
    {
      var ref := externals[n].ref;
      matches, findings := Turn(externals, mirror, n, seenRef, Lookup(byRef, ref), consumed, matches, findings);
      seenRef := seenRef + {ref};
    }
    AllRight(externals, mirror);
  }

  // Appends the row to the list its verdict belongs in.
  method Note(x: External, mirror: seq<MirrorEntry>, v: Verdict, matches: seq<MatchPair>, findings: seq<Finding>)
    returns (matches': seq<MatchPair>, findings': seq<Finding>)
    requires v.Backed? || v.Mismatched? ==> v.entry < |mirror|
    ensures matches' == if v.Backed? then matches + [MatchPair(x.id, mirror[v.entry].id)] else matches
    ensures findings' == if v.Backed? then findings else findings + [FindingOf(x, mirror, v)]
  {
    matches', findings' := matches, findings;
    match v {
      case Backed(i) => matches' := matches + [MatchPair(x.id, mirror[i].id)];
      case Mismatched(i) => findings' := findings + [Finding(AmountMismatch, x, Some(mirror[i]))];
      case Absent => findings' := findings + [Finding(MissingInternal, x, None)];
      case Repeated => findings' := findings + [Finding(Duplicate, x, None)];
    }
  }

  lemma ResultNext(externals: seq<External>, mirror: seq<MirrorEntry>, n: nat, v: Verdict)
    requires n < |externals| && v == VerdictOf(externals, mirror, n)
    ensures var x := externals[n];
            && MatchesUpTo(externals, mirror, n + 1)
               == (if v.Backed? then MatchesUpTo(externals, mirror, n) + [MatchPair(x.id, mirror[v.entry].id)]
                   else MatchesUpTo(externals, mirror, n))
            && FindingsUpTo(externals, mirror, n + 1)
               == (if v.Backed? then FindingsUpTo(externals, mirror, n)
                   else FindingsUpTo(externals, mirror, n) + [FindingOf(x, mirror, v)])
  {
    assert MatchesUpTo(externals, mirror, n) + [] == MatchesUpTo(externals, mirror, n);
    assert FindingsUpTo(externals, mirror, n) + [] == FindingsUpTo(externals, mirror, n);
  }

  // ---- What it guarantees --------------------------------------------------------------------

  // No entry backs two rows.
  lemma EntryOnce(externals: seq<External>, mirror: seq<MirrorEntry>, m: nat, n: nat)
    requires m < |externals| && n < |externals|
    requires VerdictOf(externals, mirror, m).Backed? && VerdictOf(externals, mirror, n).Backed?
    requires VerdictOf(externals, mirror, m) == VerdictOf(externals, mirror, n)
    ensures m == n
  {
    if m < n {
      UsedMeansRepeat(externals, mirror, n, VerdictOf(externals, mirror, m).entry);
    } else if n < m {
      UsedMeansRepeat(externals, mirror, m, VerdictOf(externals, mirror, n).entry);
    }
  }

  // The rows behind the matches, in order.
  function MatchedRows(externals: seq<External>, mirror: seq<MirrorEntry>, n: nat): (r: seq<nat>)
    requires n <= |externals|
    ensures forall a :: 0 <= a < |r| ==> r[a] < n && VerdictOf(externals, mirror, r[a]).Backed?
    ensures forall a, b :: 0 <= a < b < |r| ==> r[a] < r[b]
  {
    if n == 0 then []
    else
      MatchedRows(externals, mirror, n - 1) + if VerdictOf(externals, mirror, n - 1).Backed? then [n - 1] else []
  }

  lemma {:induction false} MatchedFrom(externals: seq<External>, mirror: seq<MirrorEntry>, n: nat)
    requires n <= |externals|
    ensures var rows := MatchedRows(externals, mirror, n);
            var matches := MatchesUpTo(externals, mirror, n);
            && |matches| == |rows|
            && forall a :: 0 <= a < |rows| ==>
                 matches[a] == MatchPair(externals[rows[a]].id, mirror[VerdictOf(externals, mirror, rows[a]).entry].id)
  {
    if n > 0 {
      MatchedFrom(externals, mirror, n - 1);
    }
  }

  // In the result of a run no reference is matched twice and no entry used
  // twice.
  lemma MatchesDistinct(externals: seq<External>, mirror: seq<MirrorEntry>, a: nat, b: nat)
    requires DistinctEntries(mirror)
    requires a < b < |MatchesUpTo(externals, mirror, |externals|)|
    ensures var rows := MatchedRows(externals, mirror, |externals|);
            var matches := MatchesUpTo(externals, mirror, |externals|);
            && |rows| == |matches|
            && externals[rows[a]].ref != externals[rows[b]].ref
            && matches[a].entry != matches[b].entry
  {
    MatchedFrom(externals, mirror, |externals|);
    var rows := MatchedRows(externals, mirror, |externals|);
    var i, j := VerdictOf(externals, mirror, rows[a]).entry, VerdictOf(externals, mirror, rows[b]).entry;
    assert !IsRepeat(externals, rows[b]);
    if i == j {
      EntryOnce(externals, mirror, rows[a], rows[b]);
    }
  }

  function MatchedIds(matches: seq<MatchPair>): seq<Id> {
    seq(|matches|, i requires 0 <= i < |matches| => matches[i].external)
  }

  function FoundIds(findings: seq<Finding>): seq<Id> {
    seq(|findings|, i requires 0 <= i < |findings| => findings[i].external.id)
  }

  function Ids(externals: seq<External>): seq<Id> {
    seq(|externals|, i requires 0 <= i < |externals| => externals[i].id)
  }

  lemma IdsOfNext(externals: seq<External>, mirror: seq<MirrorEntry>, n: nat, v: Verdict)
    requires n < |externals| && v == VerdictOf(externals, mirror, n)
    ensures MatchedIds(MatchesUpTo(externals, mirror, n + 1))
         == MatchedIds(MatchesUpTo(externals, mirror, n)) + if v.Backed? then [externals[n].id] else []
    ensures FoundIds(FindingsUpTo(externals, mirror, n + 1))
         == FoundIds(FindingsUpTo(externals, mirror, n)) + if v.Backed? then [] else [externals[n].id]
  {
    ResultNext(externals, mirror, n, v);
  }

  // a and b together hold exactly the ids of c.
  ghost predicate Covers(a: seq<Id>, b: seq<Id>, c: seq<Id>) {
    multiset(a) + multiset(b) == multiset(c)
  }

  lemma OneMore(a: seq<Id>, b: seq<Id>, c: seq<Id>, x: Id, backed: bool)
    requires Covers(a, b, c)
    ensures Covers(a + if backed then [x] else [], b + if backed then [] else [x], c + [x])
  {
    assert a + [] == a && b + [] == b;
  }

  lemma IdsNext(externals: seq<External>, n: nat)
    requires n < |externals|
    ensures Ids(externals[..n + 1]) == Ids(externals[..n]) + [externals[n].id]
  {
  }

  ghost predicate Complete(externals: seq<External>, mirror: seq<MirrorEntry>, n: nat)
    requires n <= |externals|
  {
    Covers(MatchedIds(MatchesUpTo(externals, mirror, n)), FoundIds(FindingsUpTo(externals, mirror, n)), Ids(externals[..n]))
  }

  lemma CompleteNext(externals: seq<External>, mirror: seq<MirrorEntry>, n: nat, v: Verdict)
    requires n < |externals| && v == VerdictOf(externals, mirror, n) && Complete(externals, mirror, n)
    ensures Complete(externals, mirror, n + 1)
  {
    IdsOfNext(externals, mirror, n, v);
    IdsNext(externals, n);
    OneMore(MatchedIds(MatchesUpTo(externals, mirror, n)), FoundIds(FindingsUpTo(externals, mirror, n)),
            Ids(externals[..n]), externals[n].id, v.Backed?);
  }

  lemma CompleteStart(externals: seq<External>, mirror: seq<MirrorEntry>)
    ensures Complete(externals, mirror, 0)
  {
    assert MatchedIds([]) == [] && FoundIds([]) == [] && Ids(externals[..0]) == [];
  }

  // Every row ends up in exactly one of the two lists.
  lemma {:induction false} Partition(externals: seq<External>, mirror: seq<MirrorEntry>, n: nat)
    requires n <= |externals|
    ensures Complete(externals, mirror, n)
  {
    if n == 0 {
      CompleteStart(externals, mirror);
    } else {
      Partition(externals, mirror, n - 1);
      CompleteNext(externals, mirror, n - 1, VerdictOf(externals, mirror, n - 1));
    }
  }

  // ---- The criteria, field by field ---------------------------------------------------------

  // Row n is the first of its batch with its reference.
  predicate LeadsRef(externals: seq<External>, n: nat)
    requires n < |externals|
  {
    forall m :: 0 <= m < n ==> externals[m].ref != externals[n].ref
  }

  // Entry i has the row's reference, amount and asset, and its side if the
  // row states one.
  predicate Backs(mirror: seq<MirrorEntry>, i: int, x: External) {
    && 0 <= i < |mirror| && mirror[i].reference == x.ref && mirror[i].amount == x.amount && mirror[i].asset == x.asset
    && (x.direction == "" || mirror[i].direction == x.direction)
  }

  predicate OldestBacking(mirror: seq<MirrorEntry>, i: int, x: External) {
    Backs(mirror, i, x) && forall j :: 0 <= j < i ==> !Backs(mirror, j, x)
  }

  predicate OldestOfRef(mirror: seq<MirrorEntry>, i: int, x: External) {
    0 <= i < |mirror| && mirror[i].reference == x.ref && forall j :: 0 <= j < i ==> mirror[j].reference != x.ref
  }

  // Each verdict in terms of the fields.
  ghost predicate VerdictRight(externals: seq<External>, mirror: seq<MirrorEntry>, n: nat, v: Verdict)
    requires n < |externals|
  {
    var x := externals[n];
    match v
    case Backed(i) => LeadsRef(externals, n) && OldestBacking(mirror, i, x)
    case Mismatched(i) => LeadsRef(externals, n) && OldestOfRef(mirror, i, x) && forall j :: 0 <= j < |mirror| ==> !Backs(mirror, j, x)
    case Absent => LeadsRef(externals, n) && forall j :: 0 <= j < |mirror| ==> mirror[j].reference != x.ref
    case Repeated => !LeadsRef(externals, n)
  }

  lemma VerdictExact(externals: seq<External>, mirror: seq<MirrorEntry>, n: nat)
    requires n < |externals|
    ensures VerdictRight(externals, mirror, n, VerdictOf(externals, mirror, n))
  {
    var x := externals[n];
    assert IsRepeat(externals, n) <==> !LeadsRef(externals, n);
    forall j | 0 <= j < |mirror|
      ensures Compatible(x, mirror[j]) <==> Backs(mirror, j, x)
      ensures SameRef(x, mirror[j]) <==> mirror[j].reference == x.ref
    {
    }
  }

  // A match is a first row and the oldest entry that backs it.
  ghost predicate MatchRight(externals: seq<External>, mirror: seq<MirrorEntry>, m: MatchPair) {
    exists n: nat, i: nat :: n < |externals| && LeadsRef(externals, n) && OldestBacking(mirror, i, externals[n])
      && m == MatchPair(externals[n].id, mirror[i].id)
  }

  // A finding is a later row of a reference, a first row none of whose
  // namesakes backs it, with the oldest of them, or one without namesakes.
  ghost predicate FindingRight(externals: seq<External>, mirror: seq<MirrorEntry>, f: Finding) {
    exists n: nat :: n < |externals| && f.external == externals[n] &&
      match f.kind
      case Duplicate => !LeadsRef(externals, n) && f.entry.None?
      case AmountMismatch =>
        && LeadsRef(externals, n) && (forall j :: 0 <= j < |mirror| ==> !Backs(mirror, j, externals[n]))
        && exists i: nat :: OldestOfRef(mirror, i, externals[n]) && f.entry == Some(mirror[i])
      case MissingInternal =>
        && LeadsRef(externals, n) && f.entry.None?
        && forall j :: 0 <= j < |mirror| ==> mirror[j].reference != externals[n].ref
  }

  lemma MatchOf(externals: seq<External>, mirror: seq<MirrorEntry>, n: nat)
    requires n < |externals| && VerdictOf(externals, mirror, n).Backed?
    ensures MatchRight(externals, mirror, MatchPair(externals[n].id, mirror[VerdictOf(externals, mirror, n).entry].id))
  {
    VerdictExact(externals, mirror, n);
  }

  lemma FindingOfRow(externals: seq<External>, mirror: seq<MirrorEntry>, n: nat)
    requires n < |externals| && !VerdictOf(externals, mirror, n).Backed?
    ensures FindingRight(externals, mirror, FindingOf(externals[n], mirror, VerdictOf(externals, mirror, n)))
  {
    VerdictExact(externals, mirror, n);
  }

  ghost predicate ResultRight(externals: seq<External>, mirror: seq<MirrorEntry>, matches: seq<MatchPair>, findings: seq<Finding>) {
    && (forall a :: 0 <= a < |matches| ==> MatchRight(externals, mirror, matches[a]))
    && (forall a :: 0 <= a < |findings| ==> FindingRight(externals, mirror, findings[a]))
  }

  lemma {:induction false} MatchesRight(externals: seq<External>, mirror: seq<MirrorEntry>, n: nat, a: nat)
    requires n <= |externals| && a < |MatchesUpTo(externals, mirror, n)|
    ensures MatchRight(externals, mirror, MatchesUpTo(externals, mirror, n)[a])
    decreases n
  {
    if a < |MatchesUpTo(externals, mirror, n - 1)| {
      MatchesRight(externals, mirror, n - 1, a);
    } else {
      MatchOf(externals, mirror, n - 1);
    }
  }

  lemma {:induction false} FindingsRight(externals: seq<External>, mirror: seq<MirrorEntry>, n: nat, a: nat)
    requires n <= |externals| && a < |FindingsUpTo(externals, mirror, n)|
    ensures FindingRight(externals, mirror, FindingsUpTo(externals, mirror, n)[a])
    decreases n
  {
    if a < |FindingsUpTo(externals, mirror, n - 1)| {
      FindingsRight(externals, mirror, n - 1, a);
    } else {
      FindingOfRow(externals, mirror, n - 1);
    }
  }

  // Every match and every finding of a pass is right. That none is missing is
  // `Partition`.
  lemma AllRight(externals: seq<External>, mirror: seq<MirrorEntry>)
    ensures var n := |externals|;
            ResultRight(externals, mirror, MatchesUpTo(externals, mirror, n), FindingsUpTo(externals, mirror, n))
  {
    var n := |externals|;
    forall a: nat | a < |MatchesUpTo(externals, mirror, n)|
      ensures MatchRight(externals, mirror, MatchesUpTo(externals, mirror, n)[a])
    {
      MatchesRight(externals, mirror, n, a);
    }
    forall a: nat | a < |FindingsUpTo(externals, mirror, n)|
      ensures FindingRight(externals, mirror, FindingsUpTo(externals, mirror, n)[a])
    {
      FindingsRight(externals, mirror, n, a);
    }
  }
}
