// Request fingerprints: the canonical, order-independent record that is
// hashed to recognise a retried request
// (services/ledger-core/internal/adapters/postgres/store.go:521-621, 842-857).
// The hash is taken to be injective, so a fingerprint is the record itself.
module Fingerprints {
  import opened Wrappers
  import opened Domain

  datatype CanonicalPosting = CanonicalPosting(account: Id, direction: string, asset: string, units: int)

  datatype Fingerprint =
    | CanonicalTransaction(
        ledger: Id,
        reference: string,
        description: string,
        status: TransactionStatus,
        effectiveAt: Option<Time>,
        metadata: Metadata,
        postings: seq<CanonicalPosting>)
    | CanonicalReversal(original: Id, reason: string)
    | CanonicalHold(account: Id, asset: string, units: int, expiresAt: Option<Time>, metadata: Metadata)

  // Nil metadata is stored and hashed as the empty object.
  function Meta(m: Option<Metadata>): (r: Metadata)
    ensures m == Some(r) || (m.None? && |r| == 0)
  {
    if m.Some? then m.value else map[]
  }

  function DirectionText(d: Direction): string {
    match d
    case Debit => "DEBIT"
    case Credit => "CREDIT"
    case Unknown(text) => text
  }

  function Canonical(p: Posting): CanonicalPosting {
    CanonicalPosting(p.account, DirectionText(p.direction), p.amount.asset, p.amount.units)
  }

  function CanonicalAll(ps: seq<Posting>): seq<CanonicalPosting> {
    seq(|ps|, i requires 0 <= i < |ps| => Canonical(ps[i]))
  }

  // Character by character comparison of strings.
  predicate TextLess(s: string, t: string) {
    t != "" && (s == "" || s[0] < t[0] || (s[0] == t[0] && TextLess(s[1..], t[1..])))
  }

  predicate Less(a: CanonicalPosting, b: CanonicalPosting) {
    if a.account != b.account then a.account < b.account
    else if a.direction != b.direction then TextLess(a.direction, b.direction)
    else if a.asset != b.asset then TextLess(a.asset, b.asset)
    else a.units < b.units
  }

  predicate Ordered(s: seq<CanonicalPosting>) {
    forall i, j :: 0 <= i < j < |s| ==> !Less(s[j], s[i])
  }

  // sort.Slice, through its result.
  function Insert(s: seq<CanonicalPosting>, x: CanonicalPosting): seq<CanonicalPosting> {
    if s == [] || !Less(x, s[|s| - 1]) then s + [x]
    else Insert(s[..|s| - 1], x) + [s[|s| - 1]]
  }

  function Sort(s: seq<CanonicalPosting>): seq<CanonicalPosting> {
    if s == [] then [] else Insert(Sort(s[..|s| - 1]), s[|s| - 1])
  }

  function TransactionFingerprint(t: Transaction): Fingerprint {
    CanonicalTransaction(
      t.ledger, t.reference, t.description, t.status,
      if t.effectiveAtProvided then Some(t.effectiveAt) else None,
      Meta(t.metadata),
      Sort(CanonicalAll(t.postings)))
  }

  function ReverseFingerprint(original: Id, reason: string): Fingerprint {
    CanonicalReversal(original, reason)
  }

  function HoldFingerprint(h: Hold): Fingerprint {
    CanonicalHold(h.account, h.amount.asset, h.amount.units,
              if h.expiresAtProvided then Some(h.expiresAt) else None, Meta(h.metadata))
  }

  // ---- The comparison is a total order ---------------------------------------

  lemma {:induction false} TextTrichotomy(s: string, t: string)
    ensures s != t ==> TextLess(s, t) || TextLess(t, s)
    ensures !(TextLess(s, t) && TextLess(t, s))
    ensures !TextLess(s, s)
  {
    if s != "" {
      if t != "" && s[0] == t[0] {
        TextTrichotomy(s[1..], t[1..]);
        assert s == [s[0]] + s[1..] && t == [t[0]] + t[1..];
      }
      TextTrichotomy(s[1..], s[1..]);
    }
  }

  lemma {:induction false} TextTransitive(s: string, t: string, u: string)
    requires TextLess(s, t) && TextLess(t, u)
    ensures TextLess(s, u)
  {
    if s != "" && s[0] == t[0] && t[0] == u[0] {
      TextTransitive(s[1..], t[1..], u[1..]);
    }
  }

  lemma LessTotal(a: CanonicalPosting, b: CanonicalPosting)
    ensures a != b ==> Less(a, b) || Less(b, a)
    ensures !(Less(a, b) && Less(b, a))
  {
    TextTrichotomy(a.direction, b.direction);
    TextTrichotomy(a.asset, b.asset);
  }

  lemma LessTransitive(a: CanonicalPosting, b: CanonicalPosting, c: CanonicalPosting)
    requires !Less(b, a) && !Less(c, b)
    ensures !Less(c, a)
  {
    LessTotal(a, b);
    LessTotal(b, c);
    LessTotal(a, c);
    if Less(c, a) {
      if a == b || b == c {
      } else {
        assert Less(a, b) && Less(b, c);
        LessTransitiveStrict(a, b, c);
      }
    }
  }

  lemma LessTransitiveStrict(a: CanonicalPosting, b: CanonicalPosting, c: CanonicalPosting)
    requires Less(a, b) && Less(b, c)
    ensures Less(a, c)
  {
    TextTrichotomy(a.direction, b.direction);
    TextTrichotomy(b.direction, c.direction);
    TextTrichotomy(a.asset, b.asset);
    TextTrichotomy(b.asset, c.asset);
    if TextLess(a.direction, b.direction) && TextLess(b.direction, c.direction) {
      TextTransitive(a.direction, b.direction, c.direction);
      TextTrichotomy(a.direction, c.direction);
    }
    if TextLess(a.asset, b.asset) && TextLess(b.asset, c.asset) {
      TextTransitive(a.asset, b.asset, c.asset);
      TextTrichotomy(a.asset, c.asset);
    }
  }

  // ---- Sorting -----------------------------------------------------------------

  lemma {:induction false} InsertContents(s: seq<CanonicalPosting>, x: CanonicalPosting)
    ensures multiset(Insert(s, x)) == multiset(s) + multiset{x}
  {
    if s != [] && Less(x, s[|s| - 1]) {
      InsertContents(s[..|s| - 1], x);
      DropLast(s);
    }
  }

  lemma InsertMembers(s: seq<CanonicalPosting>, x: CanonicalPosting, y: CanonicalPosting)
    requires y in Insert(s, x)
    ensures y in s || y == x
  {
    InsertContents(s, x);
    assert y in multiset(Insert(s, x));
  }

  lemma {:induction false} InsertOrdered(s: seq<CanonicalPosting>, x: CanonicalPosting)
    requires Ordered(s)
    ensures Ordered(Insert(s, x))
  {
    if s != [] {
      var front, last := s[..|s| - 1], s[|s| - 1];
      if Less(x, last) {
        InsertOrdered(front, x);
        LessTotal(x, last);
        var r := Insert(front, x);
        forall i | 0 <= i < |r|
          ensures !Less(last, r[i])
        {
          InsertMembers(front, x, r[i]);
        }
      } else {
        forall i | 0 <= i < |s|
          ensures !Less(x, s[i])
        {
          LessTotal(last, last);
          LessTransitive(s[i], last, x);
        }
      }
    }
  }

  lemma {:induction false} SortOrdered(s: seq<CanonicalPosting>)
    ensures Ordered(Sort(s)) && multiset(Sort(s)) == multiset(s)
  {
    if s != [] {
      SortOrdered(s[..|s| - 1]);
      InsertOrdered(Sort(s[..|s| - 1]), s[|s| - 1]);
      InsertContents(Sort(s[..|s| - 1]), s[|s| - 1]);
      DropLast(s);
    }
  }

  lemma DropLast<T>(s: seq<T>)
    requires s != []
    ensures multiset(s) == multiset(s[..|s| - 1]) + multiset{s[|s| - 1]}
    ensures multiset(s[..|s| - 1]) == multiset(s) - multiset{s[|s| - 1]}
  {
    assert s == s[..|s| - 1] + [s[|s| - 1]];
  }

  lemma LargestLast(s: seq<CanonicalPosting>, x: CanonicalPosting)
    requires s != [] && Ordered(s) && x in s
    ensures !Less(s[|s| - 1], x)
  {
    var j :| 0 <= j < |s| && s[j] == x;
    LessTotal(s[j], s[j]);
  }

  lemma SameLast(s: seq<CanonicalPosting>, t: seq<CanonicalPosting>)
    requires s != [] && t != [] && Ordered(s) && Ordered(t) && multiset(s) == multiset(t)
    ensures s[|s| - 1] == t[|t| - 1]
  {
    var x, y := s[|s| - 1], t[|t| - 1];
    assert x in multiset(t) && y in multiset(s);
    LargestLast(s, y);
    LargestLast(t, x);
    LessTotal(x, y);
  }

  // An ordered arrangement is determined by its contents.
  lemma {:induction false} OrderedUnique(s: seq<CanonicalPosting>, t: seq<CanonicalPosting>)
    requires Ordered(s) && Ordered(t) && multiset(s) == multiset(t)
    ensures s == t
  {
    assert |s| == |multiset(s)| == |multiset(t)| == |t|;
    if s != [] {
      SameLast(s, t);
      DropLast(s);
      DropLast(t);
      OrderedUnique(s[..|s| - 1], t[..|t| - 1]);
    }
  }

  predicate IsLeg(p: Posting, account: Id, direction: string, asset: string, units: int) {
    && p.account == account && p.amount.asset == asset && p.amount.units == units
    && match p.direction
       case Debit => direction == "DEBIT"
       case Credit => direction == "CREDIT"
       case Unknown(text) => direction == text
  }

  // How many postings have this account, side, asset and amount.
  function Times(ps: seq<Posting>, account: Id, direction: string, asset: string, units: int): nat {
    if ps == [] then 0
    else Times(ps[..|ps| - 1], account, direction, asset, units)
         + if IsLeg(ps[|ps| - 1], account, direction, asset, units) then 1 else 0
  }

  // The same postings, but for their order and their ids.
  ghost predicate SameLegs(ps: seq<Posting>, qs: seq<Posting>) {
    forall account, direction, asset, units ::
      Times(ps, account, direction, asset, units) == Times(qs, account, direction, asset, units)
  }

  lemma {:induction false} TimesExact(ps: seq<Posting>, c: CanonicalPosting)
    ensures multiset(CanonicalAll(ps))[c] == Times(ps, c.account, c.direction, c.asset, c.units)
  {
    if ps != [] {
      var init, last := ps[..|ps| - 1], ps[|ps| - 1];
      TimesExact(init, c);
      assert CanonicalAll(ps) == CanonicalAll(init) + [Canonical(last)];
      assert Canonical(last) == c <==> IsLeg(last, c.account, c.direction, c.asset, c.units);
    }
  }

  lemma SameLegsExact(ps: seq<Posting>, qs: seq<Posting>)
    ensures multiset(CanonicalAll(ps)) == multiset(CanonicalAll(qs)) <==> SameLegs(ps, qs)
  {
    forall account, direction, asset, units
      ensures multiset(CanonicalAll(ps))[CanonicalPosting(account, direction, asset, units)]
           == Times(ps, account, direction, asset, units)
      ensures multiset(CanonicalAll(qs))[CanonicalPosting(account, direction, asset, units)]
           == Times(qs, account, direction, asset, units)
    {
      TimesExact(ps, CanonicalPosting(account, direction, asset, units));
      TimesExact(qs, CanonicalPosting(account, direction, asset, units));
    }
    if SameLegs(ps, qs) {
      forall c: CanonicalPosting
        ensures multiset(CanonicalAll(ps))[c] == multiset(CanonicalAll(qs))[c]
      {
        assert c == CanonicalPosting(c.account, c.direction, c.asset, c.units);
      }
    }
  }

  // What a retry is allowed to change and still be the same request.
  ghost predicate SameRequest(t: Transaction, u: Transaction) {
    && t.ledger == u.ledger && t.reference == u.reference && t.description == u.description
    && t.status == u.status
    && t.effectiveAtProvided == u.effectiveAtProvided
    && (t.effectiveAtProvided ==> t.effectiveAt == u.effectiveAt)
    && Meta(t.metadata) == Meta(u.metadata)
    && SameLegs(t.postings, u.postings)
  }

  // Two requests have the same fingerprint exactly when they are the same
  // request; the order of postings and server-made ids do not matter.
  lemma FingerprintExact(t: Transaction, u: Transaction)
    ensures TransactionFingerprint(t) == TransactionFingerprint(u) <==> SameRequest(t, u)
  {
    var a, b := CanonicalAll(t.postings), CanonicalAll(u.postings);
    SortOrdered(a);
    SortOrdered(b);
    SameLegsExact(t.postings, u.postings);
    if multiset(a) == multiset(b) {
      OrderedUnique(Sort(a), Sort(b));
    }
  }

  // Likewise for holds and reversals.
  lemma HoldFingerprintExact(h: Hold, g: Hold)
    ensures HoldFingerprint(h) == HoldFingerprint(g) <==>
              && h.account == g.account && h.amount == g.amount && Meta(h.metadata) == Meta(g.metadata)
              && h.expiresAtProvided == g.expiresAtProvided && (h.expiresAtProvided ==> h.expiresAt == g.expiresAt)
  {
  }

  lemma ReverseFingerprintExact(a: Id, reason: string, b: Id, other: string)
    ensures ReverseFingerprint(a, reason) == ReverseFingerprint(b, other) <==> a == b && reason == other
  {
  }
}
