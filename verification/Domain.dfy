// Entities and rules of the double-entry ledger:
// services/ledger-core/internal/domain/domain.go.
module Domain {
  import opened Int64
  import opened Wrappers
  import opened Decimal
  import opened Money

  // A UUID; 0 is the nil UUID.
  type Id = nat

  // An instant on the UTC time line.
  type Time = int

  type Metadata = map<string, string>

  datatype NormalBalance = NormalDebit | NormalCredit

  datatype Direction = Debit | Credit | Unknown(text: string)

  datatype Posting = Posting(id: Id, account: Id, direction: Direction, amount: Amount)

  datatype TransactionStatus = Draft | Posted | Reversed

  datatype Transaction = Transaction(
    id: Id,
    ledger: Id,
    reference: string,
    description: string,
    key: string,
    status: TransactionStatus,
    effectiveAt: Time,
    effectiveAtProvided: bool,
    postedAt: Option<Time>,
    reversedBy: Option<Id>,
    reverses: Option<Id>,
    metadata: Option<Metadata>,
    postings: seq<Posting>,
    createdAt: Time)

  datatype HoldStatus = Active | Captured | Released | Expired

  datatype Hold = Hold(
    id: Id,
    ledger: Id,
    account: Id,
    key: string,
    amount: Amount,
    status: HoldStatus,
    expiresAt: Time,
    expiresAtProvided: bool,
    capturedTransaction: Option<Id>,
    metadata: Option<Metadata>,
    createdAt: Time)

  datatype Balance = Balance(
    postedDebits: int,
    postedCredits: int,
    pendingDebits: int,
    pendingCredits: int,
    held: int,
    version: int)
  {
    // Go subtracts in int64; the results wrap when they leave the range.
    function PostedNet(nb: NormalBalance): int {
      if nb == NormalDebit then Wrap(postedDebits - postedCredits)
      else Wrap(postedCredits - postedDebits)
    }

    function PendingNet(nb: NormalBalance): int {
      if nb == NormalDebit then Wrap(pendingDebits - pendingCredits)
      else Wrap(pendingCredits - pendingDebits)
    }

    function Available(nb: NormalBalance): int {
      Wrap(PostedNet(nb) - held)
    }

    // Exact counterparts, without wrap-around.
    function Grown(nb: NormalBalance): int {
      if nb == NormalDebit then postedDebits else postedCredits
    }

    function Shrunk(nb: NormalBalance): int {
      if nb == NormalDebit then postedCredits else postedDebits
    }

    function Free(nb: NormalBalance): int {
      Grown(nb) - Shrunk(nb) - held
    }
  }

  function Opposite(d: Direction): Direction {
    if d == Debit then Credit else Debit
  }

  function SignRaw(nb: NormalBalance, raw: int): int {
    if nb == NormalDebit then raw else Wrap(-raw)
  }

  // What SignRaw means, without wrap-around.
  function SignedBalance(nb: NormalBalance, raw: int): int {
    if nb == NormalDebit then raw else -raw
  }

  function RunningBalance(nb: NormalBalance, openingRaw: int, cumulativeRaw: int): int {
    SignRaw(nb, Wrap(openingRaw + cumulativeRaw))
  }

  // ---- The balance rule -----------------------------------------------------

  datatype BalanceFault =
    | TooFewPostings
    | InvalidAsset(index: nat)
    | NonPositiveAmount(index: nat)
    | InvalidDirection(index: nat)
    | SumOverflow(index: nat)
    | Unbalanced

  // Total of one side of one asset.
  function SideSum(ps: seq<Posting>, d: Direction, asset: string): int {
    if ps == [] then 0
    else
      var p := ps[|ps| - 1];
      SideSum(ps[..|ps| - 1], d, asset)
      + if p.direction == d && p.amount.asset == asset then p.amount.units else 0
  }

  ghost predicate WellFormedPosting(p: Posting) {
    ValidAsset(p.amount.asset) && 0 < p.amount.units <= MAX_INT64
    && (p.direction == Debit || p.direction == Credit)
  }

  ghost predicate WellFormedPostings(ps: seq<Posting>) {
    forall i :: 0 <= i < |ps| ==> WellFormedPosting(ps[i])
  }

  ghost predicate SidesFit(ps: seq<Posting>) {
    forall asset :: Fits(SideSum(ps, Debit, asset)) && Fits(SideSum(ps, Credit, asset))
  }

  ghost predicate SidesEqual(ps: seq<Posting>) {
    forall asset :: SideSum(ps, Debit, asset) == SideSum(ps, Credit, asset)
  }

  // Double entry: for every asset, debits equal credits.
  ghost predicate Balanced(ps: seq<Posting>) {
    |ps| >= 2 && WellFormedPostings(ps) && SidesFit(ps) && SidesEqual(ps)
  }

  predicate PostingOk(p: Posting) {
    && 1 <= |p.amount.asset| <= 12
    && (forall i :: 0 <= i < |p.amount.asset| ==> 'A' <= p.amount.asset[i] <= 'Z' || '0' <= p.amount.asset[i] <= '9')
    && 0 < p.amount.units <= MAX_INT64 && (p.direction == Debit || p.direction == Credit)
  }

  // The rule in full: two or more postings, each with an asset code of 1 to 12
  // capital letters and digits, a positive amount and a side, and for every
  // asset equal sides that fit int64.
  ghost predicate DoubleEntry(ps: seq<Posting>) {
    && |ps| >= 2 && (forall i :: 0 <= i < |ps| ==> PostingOk(ps[i]))
    && (forall asset :: SideSum(ps, Debit, asset) == SideSum(ps, Credit, asset))
    && (forall asset :: SideSum(ps, Debit, asset) <= MAX_INT64)
  }

  lemma BalancedExact(ps: seq<Posting>)
    ensures Balanced(ps) <==> DoubleEntry(ps)
  {
    if Balanced(ps) {
      forall i | 0 <= i < |ps|
        ensures PostingOk(ps[i])
      {
        assert WellFormedPosting(ps[i]);
      }
      forall asset
        ensures SideSum(ps, Debit, asset) == SideSum(ps, Credit, asset) && SideSum(ps, Debit, asset) <= MAX_INT64
      {
        assert Fits(SideSum(ps, Debit, asset));
      }
    }
    if DoubleEntry(ps) {
      forall i | 0 <= i < |ps|
        ensures WellFormedPosting(ps[i])
      {
        assert PostingOk(ps[i]);
      }
      forall asset
        ensures SideSum(ps, Debit, asset) == SideSum(ps, Credit, asset)
        ensures Fits(SideSum(ps, Debit, asset)) && Fits(SideSum(ps, Credit, asset))
      {
        SideSumNonNegative(ps, Debit, asset);
      }
    }
  }

  // The side maps of ValidateBalanced hold exactly the sides seen so far.
  ghost predicate Tallies(side: map<string, Amount>, ps: seq<Posting>, d: Direction) {
    && (forall asset :: asset in side ==>
          side[asset] == Amount(asset, SideSum(ps, d, asset)) && 0 < side[asset].units <= MAX_INT64)
    && (forall asset :: asset !in side ==> SideSum(ps, d, asset) == 0)
  }

  lemma SideSumSnoc(ps: seq<Posting>, p: Posting, d: Direction, asset: string)
    ensures SideSum(ps + [p], d, asset)
         == SideSum(ps, d, asset) + if p.direction == d && p.amount.asset == asset then p.amount.units else 0
  {
    assert (ps + [p])[..|ps|] == ps;
  }

  lemma TallySnoc(side: map<string, Amount>, ps: seq<Posting>, p: Posting, d: Direction, sum: Amount)
    requires Tallies(side, ps, d) && p.amount.units > 0
    requires p.direction == d ==> sum == Amount(p.amount.asset, SideSum(ps, d, p.amount.asset) + p.amount.units)
    requires p.direction == d ==> Fits(sum.units)
    ensures Tallies(if p.direction == d then side[p.amount.asset := sum] else side, ps + [p], d)
  {
    var next := if p.direction == d then side[p.amount.asset := sum] else side;
    forall asset
      ensures asset in next ==> next[asset] == Amount(asset, SideSum(ps + [p], d, asset))
      ensures SideSum(ps + [p], d, asset) == SideSum(ps, d, asset)
              + if p.direction == d && p.amount.asset == asset then p.amount.units else 0
    {
      SideSumSnoc(ps, p, d, asset);
    }
  }

  // A side total never shrinks when well-formed postings are appended.
  lemma {:induction false} SideSumGrows(ps: seq<Posting>, i: nat, d: Direction, asset: string)
    requires WellFormedPostings(ps) && i <= |ps|
    ensures 0 <= SideSum(ps[..i], d, asset) <= SideSum(ps, d, asset)
    decreases |ps|
  {
    if i == |ps| {
      assert ps[..i] == ps;
      SideSumNonNegative(ps, d, asset);
    } else {
      var init := ps[..|ps| - 1];
      assert init[..i] == ps[..i];
      SideSumGrows(init, i, d, asset);
    }
  }

  lemma {:induction false} SideSumNonNegative(ps: seq<Posting>, d: Direction, asset: string)
    requires WellFormedPostings(ps)
    ensures 0 <= SideSum(ps, d, asset)
  {
    if ps != [] {
      SideSumNonNegative(ps[..|ps| - 1], d, asset);
    }
  }

  // What is wrong at posting i, given that the postings before it are sound.
  ghost predicate FaultAt(ps: seq<Posting>, i: nat, f: BalanceFault) {
    && i < |ps|
    && WellFormedPostings(ps[..i]) && SidesFit(ps[..i])
    && (match f
        case InvalidAsset(j) => j == i && !ValidAsset(ps[i].amount.asset)
        case NonPositiveAmount(j) => j == i && ValidAsset(ps[i].amount.asset) && ps[i].amount.units <= 0
        case InvalidDirection(j) =>
          j == i && ValidAsset(ps[i].amount.asset) && ps[i].amount.units > 0 && ps[i].direction.Unknown?
        case SumOverflow(j) =>
          j == i && WellFormedPosting(ps[i])
          && !Fits(SideSum(ps[..i + 1], ps[i].direction, ps[i].amount.asset))
        case _ => false)
  }

  lemma FaultRefutes(ps: seq<Posting>, i: nat, f: BalanceFault)
    requires FaultAt(ps, i, f)
    ensures !(WellFormedPostings(ps) && SidesFit(ps))
  {
    if WellFormedPostings(ps) && SidesFit(ps) {
      assert WellFormedPosting(ps[i]);
      SideSumGrows(ps, i + 1, ps[i].direction, ps[i].amount.asset);
    }
  }

  method ValidateBalanced(ps: seq<Posting>) returns (r: Option<BalanceFault>)
    requires forall i :: 0 <= i < |ps| ==> Fits(ps[i].amount.units)
    ensures r == None <==> Balanced(ps)
    ensures r == Some(TooFewPostings) <==> |ps| < 2
    ensures r == Some(Unbalanced) <==>
              |ps| >= 2 && WellFormedPostings(ps) && SidesFit(ps) && !SidesEqual(ps)
    ensures r.Some? && r.value != TooFewPostings && r.value != Unbalanced ==>
              exists i :: FaultAt(ps, i, r.value)
  {
    if |ps| < 2 {
      return Some(TooFewPostings);
    }
    var debits: map<string, Amount> := map[];
    var credits: map<string, Amount> := map[];
    for i := 0 to |ps|
      invariant WellFormedPostings(ps[..i]) && SidesFit(ps[..i])
      invariant Tallies(debits, ps[..i], Debit) && Tallies(credits, ps[..i], Credit)
    {
      debits, credits, r := TallyPosting(debits, credits, ps, i);
      if r.Some? {
        FaultRefutes(ps, i, r.value);
        return;
      }
    }
    assert ps[..|ps|] == ps;
    r := CompareSides(debits, credits, ps);
  }

  // One turn of the loop: check posting i and add it to its side.
  method TallyPosting(debits: map<string, Amount>, credits: map<string, Amount>, ps: seq<Posting>, i: nat)
    returns (debits': map<string, Amount>, credits': map<string, Amount>, r: Option<BalanceFault>)
    requires i < |ps| && Fits(ps[i].amount.units)
    requires WellFormedPostings(ps[..i]) && SidesFit(ps[..i])
    requires Tallies(debits, ps[..i], Debit) && Tallies(credits, ps[..i], Credit)
    ensures r.Some? ==> FaultAt(ps, i, r.value) && r.value != TooFewPostings && r.value != Unbalanced
    ensures r.None? ==>
              && WellFormedPostings(ps[..i + 1]) && SidesFit(ps[..i + 1])
              && Tallies(debits', ps[..i + 1], Debit) && Tallies(credits', ps[..i + 1], Credit)
  {
    debits', credits' := debits, credits;
    r := CheckPosting(ps, i);
    if r.Some? {
      return;
    }
    var sum := AddToSide(if ps[i].direction == Debit then debits else credits, ps, i);
    if sum.None? {
      return debits, credits, Some(SumOverflow(i));
    }
    assert ps[..i + 1] == ps[..i] + [ps[i]];
    TallySnoc(debits, ps[..i], ps[i], Debit, sum.value);
    TallySnoc(credits, ps[..i], ps[i], Credit, sum.value);
    if ps[i].direction == Debit {
      debits' := debits[ps[i].amount.asset := sum.value];
    } else {
      credits' := credits[ps[i].amount.asset := sum.value];
    }
    TalliesFit(debits', credits', ps[..i + 1]);
  }

  method AddToSide(side: map<string, Amount>, ps: seq<Posting>, i: nat) returns (sum: Option<Amount>)
    requires i < |ps| && WellFormedPosting(ps[i])
    requires Tallies(side, ps[..i], ps[i].direction)
    ensures var total := SideSum(ps[..i], ps[i].direction, ps[i].amount.asset) + ps[i].amount.units;
            && SideSum(ps[..i + 1], ps[i].direction, ps[i].amount.asset) == total
            && sum == if Fits(total) then Some(Amount(ps[i].amount.asset, total)) else None
  {
    var p := ps[i];
    var current := if p.amount.asset in side then side[p.amount.asset] else Amount(p.amount.asset, 0);
    var added := Add(current, p.amount);
    assert ps[..i + 1] == ps[..i] + [p];
    SideSumSnoc(ps[..i], p, p.direction, p.amount.asset);
    sum := if added.Success? then Some(added.value) else None;
  }

  lemma TalliesFit(debits: map<string, Amount>, credits: map<string, Amount>, ps: seq<Posting>)
    requires Tallies(debits, ps, Debit) && Tallies(credits, ps, Credit)
    ensures SidesFit(ps)
  {
  }

  // The checks on one posting, in the order the code makes them.
  method CheckPosting(ps: seq<Posting>, i: nat) returns (r: Option<BalanceFault>)
    requires i < |ps| && Fits(ps[i].amount.units)
    requires WellFormedPostings(ps[..i]) && SidesFit(ps[..i])
    ensures r == None <==> WellFormedPosting(ps[i])
    ensures r.Some? ==> FaultAt(ps, i, r.value) && r.value != TooFewPostings && r.value != Unbalanced
  {
    var p := ps[i];
    var assetOk := ValidateAssetCode(p.amount.asset);
    if !assetOk {
      return Some(InvalidAsset(i));
    }
    if p.amount.units <= 0 {
      return Some(NonPositiveAmount(i));
    }
    if p.direction.Unknown? {
      return Some(InvalidDirection(i));
    }
    return None;
  }

  // The two closing loops over the side maps, whose iteration order is
  // arbitrary.
  method CompareSides(debits: map<string, Amount>, credits: map<string, Amount>, ghost ps: seq<Posting>)
    returns (r: Option<BalanceFault>)
    requires Tallies(debits, ps, Debit) && Tallies(credits, ps, Credit)
    ensures r == if SidesEqual(ps) then None else Some(Unbalanced)
  {
    var todo := debits.Keys;
    while todo != {}
      invariant todo <= debits.Keys
      invariant forall a :: a in debits.Keys - todo ==> a in credits && credits[a].units == debits[a].units
      decreases todo
    {
      var asset :| asset in todo;
      if asset !in credits || credits[asset].units != debits[asset].units {
        assert SideSum(ps, Debit, asset) != SideSum(ps, Credit, asset);
        return Some(Unbalanced);
      }
      todo := todo - {asset};
    }
    todo := credits.Keys;
    while todo != {}
      invariant todo <= credits.Keys
      invariant forall a :: a in credits.Keys - todo ==> a in debits
      decreases todo
    {
      var asset :| asset in todo;
      if asset !in debits {
        assert SideSum(ps, Debit, asset) != SideSum(ps, Credit, asset);
        return Some(Unbalanced);
      }
      todo := todo - {asset};
    }
    forall asset
      ensures SideSum(ps, Debit, asset) == SideSum(ps, Credit, asset)
    {
      assert asset in debits.Keys <==> asset in credits.Keys;
    }
    return None;
  }

  // ---- Order does not matter --------------------------------------------------

  lemma {:induction false} SideSumRemove(ps: seq<Posting>, i: nat, d: Direction, asset: string)
    requires i < |ps|
    ensures SideSum(ps, d, asset) == SideSum(ps[..i] + ps[i + 1..], d, asset)
            + if ps[i].direction == d && ps[i].amount.asset == asset then ps[i].amount.units else 0
  {
    var last := |ps| - 1;
    if i == last {
      assert ps[..i] + ps[i + 1..] == ps[..last];
    } else {
      var init := ps[..last];
      SideSumRemove(init, i, d, asset);
      assert ps[..i] + ps[i + 1..] == (init[..i] + init[i + 1..]) + [ps[last]];
      SideSumSnoc(init[..i] + init[i + 1..], ps[last], d, asset);
    }
  }

  lemma RemoveOne<T>(s: seq<T>, i: nat)
    requires i < |s|
    ensures multiset(s[..i] + s[i + 1..]) == multiset(s) - multiset{s[i]}
  {
    assert s == s[..i] + [s[i]] + s[i + 1..];
  }

  lemma {:induction false} SideSumPermuted(ps: seq<Posting>, qs: seq<Posting>, d: Direction, asset: string)
    requires multiset(ps) == multiset(qs)
    ensures SideSum(ps, d, asset) == SideSum(qs, d, asset)
    decreases |ps|
  {
    if ps == [] {
      assert |multiset(qs)| == 0;
    } else {
      var last := |ps| - 1;
      assert ps[last] in multiset(qs);
      var j :| 0 <= j < |qs| && qs[j] == ps[last];
      RemoveOne(ps, last);
      RemoveOne(qs, j);
      assert ps[..last] + ps[last + 1..] == ps[..last];
      SideSumPermuted(ps[..last], qs[..j] + qs[j + 1..], d, asset);
      SideSumRemove(qs, j, d, asset);
    }
  }

  // The rule accepts a list of postings exactly when it accepts every
  // reordering of it.
  lemma BalancedPermuted(ps: seq<Posting>, qs: seq<Posting>)
    requires multiset(ps) == multiset(qs)
    ensures Balanced(ps) <==> Balanced(qs)
  {
    assert |ps| == |multiset(ps)| == |multiset(qs)| == |qs|;
    forall asset, d | d == Debit || d == Credit
      ensures SideSum(ps, d, asset) == SideSum(qs, d, asset)
    {
      SideSumPermuted(ps, qs, d, asset);
    }
    if WellFormedPostings(ps) {
      WellFormedPermuted(ps, qs);
    }
    if WellFormedPostings(qs) {
      WellFormedPermuted(qs, ps);
    }
  }

  lemma WellFormedPermuted(ps: seq<Posting>, qs: seq<Posting>)
    requires multiset(ps) == multiset(qs) && WellFormedPostings(ps)
    ensures WellFormedPostings(qs)
  {
    forall j | 0 <= j < |qs|
      ensures WellFormedPosting(qs[j])
    {
      assert qs[j] in multiset(ps);
    }
  }

  // ---- Reversal ---------------------------------------------------------------

  const REVERSAL_PREFIX := "reversal-of:"

  datatype ReverseFault = AlreadyReversed | NotPosted

  // The canonical text of a UUID.
  function IdText(id: Id): (s: string)
    ensures AllDigits(s) && Value(s) == id
  {
    NatText(id)
  }

  function MirrorPosting(p: Posting, id: Id): Posting {
    Posting(id, p.account, Opposite(p.direction), p.amount)
  }

  function MirrorPostings(ps: seq<Posting>, ids: seq<Id>): seq<Posting>
    requires |ids| == |ps|
  {
    seq(|ps|, i requires 0 <= i < |ps| => MirrorPosting(ps[i], ids[i]))
  }

  // The compensating transaction of a posted original.
  function ReversalOf(original: Transaction, id: Id, ids: seq<Id>, now: Time): Transaction
    requires |ids| == |original.postings|
  {
    Transaction(
      id := id,
      ledger := original.ledger,
      reference := REVERSAL_PREFIX + IdText(original.id),
      description := "",
      key := REVERSAL_PREFIX + IdText(original.id),
      status := Posted,
      effectiveAt := now,
      effectiveAtProvided := false,
      postedAt := Some(now),
      reversedBy := None,
      reverses := Some(original.id),
      metadata := None,
      postings := MirrorPostings(original.postings, ids),
      createdAt := now)
  }

  function ReverseCheck(original: Transaction): Option<ReverseFault> {
    if original.reversedBy.Some? || original.status == Reversed then Some(AlreadyReversed)
    else if original.status != Posted then Some(NotPosted)
    else None
  }

  method Reverse(original: Transaction, id: Id, ids: seq<Id>, now: Time)
    returns (r: Result<Transaction, ReverseFault>)
    requires |ids| == |original.postings|
    ensures r == match ReverseCheck(original)
                 case Some(f) => Failure(f)
                 case None => Success(ReversalOf(original, id, ids, now))
    ensures original.reversedBy.Some? || original.status == Reversed ==> r == Failure(AlreadyReversed)
    ensures original.reversedBy.None? && original.status == Draft ==> r == Failure(NotPosted)
    ensures original.reversedBy.None? && original.status == Posted ==> r.Success?
  {
    if original.reversedBy.Some? || original.status == Reversed {
      return Failure(AlreadyReversed);
    }
    if original.status != Posted {
      return Failure(NotPosted);
    }
    var ps: seq<Posting> := [];
    for i := 0 to |original.postings|
      invariant |ps| == i
      invariant forall j :: 0 <= j < i ==> ps[j] == MirrorPosting(original.postings[j], ids[j])
    {
      var p := original.postings[i];
      ps := ps + [Posting(ids[i], p.account, if p.direction == Debit then Credit else Debit, p.amount)];
    }
    assert ps == MirrorPostings(original.postings, ids);
    var text := REVERSAL_PREFIX + IdText(original.id);
    return Success(Transaction(id, original.ledger, text, "", text, Posted, now, false, Some(now), None,
                               Some(original.id), None, ps, now));
  }

  lemma {:induction false} MirrorSides(ps: seq<Posting>, ids: seq<Id>, asset: string)
    requires |ids| == |ps| && WellFormedPostings(ps)
    ensures SideSum(MirrorPostings(ps, ids), Debit, asset) == SideSum(ps, Credit, asset)
    ensures SideSum(MirrorPostings(ps, ids), Credit, asset) == SideSum(ps, Debit, asset)
  {
    if ps != [] {
      var last := |ps| - 1;
      var init := ps[..last];
      assert forall i :: 0 <= i < last ==> WellFormedPosting(init[i]);
      MirrorSides(init, ids[..last], asset);
      assert MirrorPostings(ps, ids)[..last] == MirrorPostings(init, ids[..last]);
      assert WellFormedPosting(ps[last]);
    }
  }

  // A reversal needs no validation of its own: it is balanced because the
  // original is.
  lemma ReversalBalanced(ps: seq<Posting>, ids: seq<Id>)
    requires |ids| == |ps| && Balanced(ps)
    ensures Balanced(MirrorPostings(ps, ids))
  {
    forall asset
      ensures SideSum(MirrorPostings(ps, ids), Debit, asset) == SideSum(ps, Credit, asset)
      ensures SideSum(MirrorPostings(ps, ids), Credit, asset) == SideSum(ps, Debit, asset)
    {
      MirrorSides(ps, ids, asset);
    }
    forall i | 0 <= i < |ps|
      ensures WellFormedPosting(MirrorPostings(ps, ids)[i])
    {
      assert WellFormedPosting(ps[i]);
    }
  }
}
