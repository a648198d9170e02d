// The webhook signature header: services/webhooks/internal/signature/
// signature.go:52-141. The MAC is a parameter.
module Signatures {
  import opened Int64
  import opened Wrappers
  import opened Decimal

  newtype byte = x: int | 0 <= x < 256

  type Mac = (string, int, seq<byte>) -> seq<byte>

  // ---- Hexadecimal -----------------------------------------------------------

  function HexChar(n: nat): (c: char)
    requires n < 16
    ensures HexValue(c) == Some(n) && c != ',' && c != '=' && !IsSpace(c)
    ensures '0' <= c <= '9' || 'a' <= c <= 'f'
  {
    if n < 10 then ('0' as int + n) as char else ('a' as int + n - 10) as char
  }

  function HexValue(c: char): (r: Option<nat>)
    ensures r.Some? ==> r.value < 16
  {
    if '0' <= c <= '9' then Some(c as int - '0' as int)
    else if 'a' <= c <= 'f' then Some(c as int - 'a' as int + 10)
    else if 'A' <= c <= 'F' then Some(c as int - 'A' as int + 10)
    else None
  }

  function HexEncode(bs: seq<byte>): string {
    if bs == [] then "" else HexEncode(bs[..|bs| - 1]) + [HexChar(bs[|bs| - 1] as int / 16), HexChar(bs[|bs| - 1] as int % 16)]
  }

  function HexDecode(s: string): Option<seq<byte>> {
    if s == "" then Some([])
    else if |s| == 1 then None
    else
      var init := HexDecode(s[..|s| - 2]);
      var hi, lo := HexValue(s[|s| - 2]), HexValue(s[|s| - 1]);
      if init.None? || hi.None? || lo.None? then None
      else Some(init.value + [(16 * hi.value + lo.value) as byte])
  }

  lemma {:induction false} HexRoundTrip(bs: seq<byte>)
    ensures HexDecode(HexEncode(bs)) == Some(bs)
  {
    if bs != [] {
      var init, b := bs[..|bs| - 1], bs[|bs| - 1];
      HexRoundTrip(init);
      var s := HexEncode(bs);
      assert s[..|s| - 2] == HexEncode(init);
      assert bs == init + [b];
    }
  }

  // ---- Header text -----------------------------------------------------------------

  // Unicode White_Space.
  predicate IsSpace(c: char) {
    '\U{9}' <= c <= '\U{D}' || c == ' ' || c == '\U{85}' || c == '\U{A0}' || c == '\U{1680}'
    || '\U{2000}' <= c <= '\U{200A}' || c == '\U{2028}' || c == '\U{2029}' || c == '\U{202F}' || c == '\U{205F}'
    || c == '\U{3000}'
  }

  predicate Plain(s: string) {
    forall i :: 0 <= i < |s| ==> s[i] != ',' && s[i] != '=' && !IsSpace(s[i])
  }

  lemma {:induction false} HexPlain(bs: seq<byte>)
    ensures Plain(HexEncode(bs))
  {
    if bs != [] {
      HexPlain(bs[..|bs| - 1]);
    }
  }

  lemma IntPlain(n: int)
    ensures Plain(IntText(n))
  {
    IntTextChars(n);
  }

  function Sign(mac: Mac, secret: string, t: int, body: seq<byte>): string {
    HexEncode(mac(secret, t, body))
  }

  function HeaderText(mac: Mac, secrets: seq<string>, t: int, body: seq<byte>): string {
    if secrets == [] then "t=" + IntText(t)
    else HeaderText(mac, secrets[..|secrets| - 1], t, body) + ",v1=" + Sign(mac, secrets[|secrets| - 1], t, body)
  }

  method HeaderMulti(mac: Mac, secrets: seq<string>, t: int, body: seq<byte>) returns (header: string)
    ensures header == HeaderText(mac, secrets, t, body)
  {
    header := "t=" + IntText(t);
    for i := 0 to |secrets|
      invariant header == HeaderText(mac, secrets[..i], t, body)
    {
      assert secrets[..i + 1][..i] == secrets[..i];
      header := header + ",v1=" + Sign(mac, secrets[i], t, body);
    }
    assert secrets[..|secrets|] == secrets;
  }

  // ---- Taking it apart -----------------------------------------------------------------

  function IndexOf(s: string, c: char): (r: Option<nat>)
    ensures r.Some? ==> r.value < |s| && s[r.value] == c && forall j :: 0 <= j < r.value ==> s[j] != c
    ensures r.None? ==> forall j :: 0 <= j < |s| ==> s[j] != c
  {
    if s == "" then None
    else if s[0] == c then Some(0)
    else
      var rest := IndexOf(s[1..], c);
      if rest.Some? then Some(rest.value + 1) else None
  }

  // strings.Split on a comma: always at least one part.
  function Split(s: string): (parts: seq<string>)
    ensures parts != []
    decreases |s|
  {
    var i := IndexOf(s, ',');
    if i.None? then [s] else [s[..i.value]] + Split(s[i.value + 1..])
  }

  function TrimLeft(s: string): string {
    if s != "" && IsSpace(s[0]) then TrimLeft(s[1..]) else s
  }

  function TrimRight(s: string): string {
    if s != "" && IsSpace(s[|s| - 1]) then TrimRight(s[..|s| - 1]) else s
  }

  function TrimSpace(s: string): string {
    TrimRight(TrimLeft(s))
  }

  // strings.Cut at the first equals sign.
  function Cut(part: string): Option<(string, string)> {
    var i := IndexOf(TrimSpace(part), '=');
    if i.None? then None else Some((TrimSpace(part)[..i.value], TrimSpace(part)[i.value + 1..]))
  }

  datatype Header = Header(timestamp: int, candidates: seq<string>)

  datatype Fault = InvalidHeader | TimestampTooOld | SignatureMismatch

  predicate GoodPart(part: string) {
    Cut(part).Some? && (Cut(part).value.0 == "t" ==> ParseInt(Cut(part).value.1).Some?)
  }

  predicate IsKey(part: string, key: string) {
    Cut(part).Some? && Cut(part).value.0 == key
  }

  // The last timestamp wins.
  function Stamp(parts: seq<string>): Option<int> {
    if parts == [] then None
    else
      var part := parts[|parts| - 1];
      if IsKey(part, "t") then ParseInt(Cut(part).value.1) else Stamp(parts[..|parts| - 1])
  }

  // Every v1 value, in order; unknown keys are ignored.
  function Candidates(parts: seq<string>): seq<string> {
    if parts == [] then []
    else
      var part := parts[|parts| - 1];
      Candidates(parts[..|parts| - 1]) + if IsKey(part, "v1") then [Cut(part).value.1] else []
  }

  function Parsed(header: string): Result<Header, Fault> {
    var parts := Split(header);
    if GoodUpTo(parts, |parts|) && Stamp(parts).Some? && Candidates(parts) != []
    then Success(Header(Stamp(parts).value, Candidates(parts)))
    else Failure(InvalidHeader)
  }

  // What one part adds to the timestamp and the candidates seen so far.
  function NextStamp(stamp: Option<int>, part: string): Option<int> {
    if IsKey(part, "t") then ParseInt(Cut(part).value.1) else stamp
  }

  function NextCandidates(candidates: seq<string>, part: string): seq<string> {
    if IsKey(part, "v1") then candidates + [Cut(part).value.1] else candidates
  }

  method ReadPart(part: string, stamp: Option<int>, candidates: seq<string>)
    returns (ok: bool, stamp': Option<int>, candidates': seq<string>)
    ensures ok == GoodPart(part)
    ensures ok ==> stamp' == NextStamp(stamp, part) && candidates' == NextCandidates(candidates, part)
  {
    ok, stamp', candidates' := true, stamp, candidates;
    var cut := Cut(part);
    if cut.None? {
      ok := false;
    } else if cut.value.0 == "t" {
      stamp' := ParseInt(cut.value.1);
      ok := stamp'.Some?;
    } else if cut.value.0 == "v1" {
      candidates' := candidates + [cut.value.1];
    }
  }

  lemma NextPart(parts: seq<string>, i: nat)
    requires i < |parts|
    ensures Stamp(parts[..i + 1]) == NextStamp(Stamp(parts[..i]), parts[i])
    ensures Candidates(parts[..i + 1]) == NextCandidates(Candidates(parts[..i]), parts[i])
  {
    assert parts[..i + 1][..i] == parts[..i];
    assert Candidates(parts[..i]) + [] == Candidates(parts[..i]);
  }

  predicate GoodUpTo(parts: seq<string>, n: nat)
    requires n <= |parts|
  {
    forall j :: 0 <= j < n ==> GoodPart(parts[j])
  }

  method ParseHeader(header: string) returns (r: Result<Header, Fault>)
    ensures r == Parsed(header)
  {
    var parts := Split(header);
    var stamp: Option<int> := None;
    var candidates: seq<string> := [];
    for i := 0 to |parts|
      invariant GoodUpTo(parts, i)
      invariant stamp == Stamp(parts[..i]) && candidates == Candidates(parts[..i])
    {
      var ok;
      NextPart(parts, i);
      ok, stamp, candidates := ReadPart(parts[i], stamp, candidates);
      if !ok {
        return Failure(InvalidHeader);
      }
    }
    assert parts[..|parts|] == parts;
    if stamp.None? || |candidates| == 0 {
      return Failure(InvalidHeader);
    }
    return Success(Header(stamp.value, candidates));
  }

  // ---- Printing and parsing ---------------------------------------------------------------

  lemma SplitFirst(a: string, rest: string)
    requires forall i :: 0 <= i < |a| ==> a[i] != ','
    ensures Split(a) == [a]
    ensures Split(a + "," + rest) == [a] + Split(rest)
  {
    var s := a + "," + rest;
    assert s[|a|] == ',';
    assert IndexOf(s, ',') == Some(|a|);
    assert s[..|a|] == a && s[|a| + 1..] == rest;
  }

  lemma {:induction false} SplitLast(s: string, b: string)
    requires forall i :: 0 <= i < |b| ==> b[i] != ','
    ensures Split(s + "," + b) == Split(s) + [b]
    decreases |s|
  {
    var i := IndexOf(s, ',');
    if i.None? {
      SplitFirst(s, b);
      SplitFirst(b, "");
    } else {
      var a, rest := s[..i.value], s[i.value + 1..];
      assert s == a + "," + rest;
      assert s + "," + b == a + "," + (rest + "," + b);
      SplitFirst(a, rest + "," + b);
      SplitLast(rest, b);
    }
  }

  lemma TrimNothing(s: string)
    requires s != "" && !IsSpace(s[0]) && !IsSpace(s[|s| - 1])
    ensures TrimSpace(s) == s
  {
  }

  lemma CutPart(key: string, value: string)
    requires key != "" && Plain(key) && Plain(value)
    ensures Cut(key + "=" + value) == Some((key, value))
    ensures forall i :: 0 <= i < |key + "=" + value| ==> (key + "=" + value)[i] != ','
  {
    var s := key + "=" + value;
    TrimNothing(s);
    assert s[|key|] == '=';
    assert IndexOf(s, '=') == Some(|key|);
    assert s[..|key|] == key && s[|key| + 1..] == value;
  }

  function Signed(mac: Mac, secrets: seq<string>, t: int, body: seq<byte>): seq<string> {
    seq(|secrets|, i requires 0 <= i < |secrets| => Sign(mac, secrets[i], t, body))
  }

  ghost predicate Reads(parts: seq<string>, t: int, candidates: seq<string>) {
    GoodUpTo(parts, |parts|) && Stamp(parts) == Some(t) && Candidates(parts) == candidates
  }

  lemma StampPart(t: int)
    requires Fits(t)
    ensures Reads(Split("t=" + IntText(t)), t, [])
  {
    IntPlain(t);
    CutPart("t", IntText(t));
    assert "t" + "=" + IntText(t) == "t=" + IntText(t);
    SplitFirst("t=" + IntText(t), "");
    ParseIntText(t);
  }

  lemma SignaturePart(parts: seq<string>, t: int, candidates: seq<string>, sig: string)
    requires Reads(parts, t, candidates) && Plain(sig)
    ensures Reads(parts + ["v1=" + sig], t, candidates + [sig])
  {
    var part := "v1=" + sig;
    CutPart("v1", sig);
    assert "v1" + "=" + sig == part;
    var all := parts + [part];
    NextPart(all, |parts|);
    assert all[..|parts| + 1] == all && all[..|parts|] == parts;
    forall j | 0 <= j < |all|
      ensures GoodPart(all[j])
    {
      assert j < |parts| ==> all[j] == parts[j];
    }
  }

  lemma SplitSignature(before: string, sig: string)
    requires Plain(sig)
    ensures Split(before + ",v1=" + sig) == Split(before) + ["v1=" + sig]
  {
    assert before + ",v1=" + sig == before + "," + ("v1=" + sig);
    SplitLast(before, "v1=" + sig);
  }

  lemma SignedSnoc(mac: Mac, secrets: seq<string>, t: int, body: seq<byte>)
    requires secrets != []
    ensures Signed(mac, secrets, t, body)
         == Signed(mac, secrets[..|secrets| - 1], t, body) + [Sign(mac, secrets[|secrets| - 1], t, body)]
  {
  }

  lemma {:induction false} HeaderParts(mac: Mac, secrets: seq<string>, t: int, body: seq<byte>)
    requires Fits(t)
    ensures Reads(Split(HeaderText(mac, secrets, t, body)), t, Signed(mac, secrets, t, body))
  {
    if secrets == [] {
      StampPart(t);
      assert Signed(mac, secrets, t, body) == [];
    } else {
      var init := secrets[..|secrets| - 1];
      HeaderParts(mac, init, t, body);
      var sig := Sign(mac, secrets[|secrets| - 1], t, body);
      HexPlain(mac(secrets[|secrets| - 1], t, body));
      SplitSignature(HeaderText(mac, init, t, body), sig);
      SignedSnoc(mac, secrets, t, body);
      SignaturePart(Split(HeaderText(mac, init, t, body)), t, Signed(mac, init, t, body), sig);
    }
  }

  // For every int64 timestamp and every non-empty list of secrets, parsing
  // the printed header gives the timestamp and the signatures back, in order.
  lemma PrintParse(mac: Mac, secrets: seq<string>, t: int, body: seq<byte>)
    requires Fits(t) && secrets != []
    ensures Parsed(HeaderText(mac, secrets, t, body)) == Success(Header(t, Signed(mac, secrets, t, body)))
  {
    HeaderParts(mac, secrets, t, body);
    assert |Signed(mac, secrets, t, body)| == |secrets|;
  }

  // ---- What the parser accepts, character by character ------------------------------------

  predicate NoChar(s: string, c: char) {
    forall i :: 0 <= i < |s| ==> s[i] != c
  }

  function Joined(parts: seq<string>): string
    requires parts != []
  {
    if |parts| == 1 then parts[0] else parts[0] + "," + Joined(parts[1..])
  }

  // The parts are what the commas separate, and there is only one such list.
  lemma {:induction false} SplitJoined(s: string)
    ensures Joined(Split(s)) == s
    decreases |s|
  {
    var i := IndexOf(s, ',');
    if i.Some? {
      var rest := s[i.value + 1..];
      SplitJoined(rest);
      assert Split(s)[1..] == Split(rest);
      assert s == s[..i.value] + "," + rest;
    }
  }

  lemma {:induction false} SplitParts(s: string, n: nat)
    requires n < |Split(s)|
    ensures NoChar(Split(s)[n], ',')
    decreases |s|
  {
    var i := IndexOf(s, ',');
    if i.Some? && n > 0 {
      SplitParts(s[i.value + 1..], n - 1);
    }
  }

  lemma {:induction false} SplitUnique(parts: seq<string>)
    requires parts != [] && forall i :: 0 <= i < |parts| ==> NoChar(parts[i], ',')
    ensures Split(Joined(parts)) == parts
  {
    if |parts| == 1 {
      SplitFirst(parts[0], "");
    } else {
      SplitUnique(parts[1..]);
      SplitFirst(parts[0], Joined(parts[1..]));
    }
  }

  predicate Blank(s: string) {
    forall i :: 0 <= i < |s| ==> IsSpace(s[i])
  }

  lemma {:induction false} TrimLeftExact(s: string) returns (a: string)
    ensures s == a + TrimLeft(s) && Blank(a)
    ensures TrimLeft(s) != "" ==> !IsSpace(TrimLeft(s)[0])
  {
    a := "";
    if s != "" && IsSpace(s[0]) {
      a := TrimLeftExact(s[1..]);
      a := [s[0]] + a;
    }
  }

  lemma {:induction false} TrimRightExact(s: string) returns (b: string)
    ensures s == TrimRight(s) + b && Blank(b)
    ensures TrimRight(s) != "" ==> !IsSpace(TrimRight(s)[|TrimRight(s)| - 1])
  {
    b := "";
    if s != "" && IsSpace(s[|s| - 1]) {
      b := TrimRightExact(s[..|s| - 1]);
      b := b + [s[|s| - 1]];
    }
  }

  // Spaces go from both ends, and nothing else does.
  lemma TrimExact(s: string) returns (a: string, b: string)
    ensures s == a + TrimSpace(s) + b && Blank(a) && Blank(b)
    ensures var t := TrimSpace(s); t != "" ==> !IsSpace(t[0]) && !IsSpace(t[|t| - 1])
  {
    a := TrimLeftExact(s);
    b := TrimRightExact(TrimLeft(s));
  }

  // A part is a key and a value around its first equals sign.
  lemma CutExact(part: string, key: string, value: string)
    ensures Cut(part) == Some((key, value)) <==> TrimSpace(part) == key + "=" + value && NoChar(key, '=')
    ensures Cut(part).None? <==> NoChar(TrimSpace(part), '=')
  {
    var t := TrimSpace(part);
    if t == key + "=" + value && NoChar(key, '=') {
      assert t[|key|] == '=';
      assert IndexOf(t, '=') == Some(|key|);
      assert t[..|key|] == key && t[|key| + 1..] == value;
    }
    if Cut(part) == Some((key, value)) {
      var i := IndexOf(t, '=').value;
      assert t == t[..i] + "=" + t[i + 1..];
    }
  }

  // Part i says t, and no later one does.
  predicate LastStamp(parts: seq<string>, i: int) {
    0 <= i < |parts| && IsKey(parts[i], "t") && forall j :: i < j < |parts| ==> !IsKey(parts[j], "t")
  }

  lemma LastShorter(parts: seq<string>, i: nat)
    requires LastStamp(parts, i) && i < |parts| - 1
    ensures LastStamp(parts[..|parts| - 1], i) && parts[..|parts| - 1][i] == parts[i]
    ensures !IsKey(parts[|parts| - 1], "t")
  {
    var init := parts[..|parts| - 1];
    forall j | i < j < |init|
      ensures !IsKey(init[j], "t")
    {
      assert init[j] == parts[j];
    }
  }

  lemma {:induction false} StampAt(parts: seq<string>, i: nat)
    requires LastStamp(parts, i)
    ensures Stamp(parts) == ParseInt(Cut(parts[i]).value.1)
    decreases |parts|
  {
    if i < |parts| - 1 {
      LastShorter(parts, i);
      StampAt(parts[..|parts| - 1], i);
    }
  }

  lemma {:induction false} NoStamp(parts: seq<string>)
    requires forall i :: 0 <= i < |parts| ==> !IsKey(parts[i], "t")
    ensures Stamp(parts).None?
  {
    if parts != [] {
      NoStamp(parts[..|parts| - 1]);
    }
  }

  lemma {:induction false} SomeLast(parts: seq<string>, i: nat) returns (n: nat)
    requires i < |parts| && IsKey(parts[i], "t")
    ensures LastStamp(parts, n)
    decreases |parts| - i
  {
    n := i;
    if j: nat :| i < j < |parts| && IsKey(parts[j], "t") {
      n := SomeLast(parts, j);
    }
  }

  // The positions of the v1 parts, in order.
  function Versioned(parts: seq<string>): (r: seq<nat>)
    ensures forall a :: 0 <= a < |r| ==> r[a] < |parts|
  {
    if parts == [] then []
    else
      var last := |parts| - 1;
      Versioned(parts[..last]) + if IsKey(parts[last], "v1") then [last] else []
  }

  lemma VersionedLast(parts: seq<string>, i: nat)
    requires parts != []
    ensures var last := |parts| - 1;
            i in Versioned(parts) <==> i in Versioned(parts[..last]) || (i == last && IsKey(parts[last], "v1"))
  {
  }

  lemma {:induction false} VersionedExact(parts: seq<string>, i: nat)
    ensures i in Versioned(parts) <==> i < |parts| && IsKey(parts[i], "v1")
  {
    if parts != [] {
      VersionedLast(parts, i);
      VersionedExact(parts[..|parts| - 1], i);
    }
  }

  lemma {:induction false} VersionedOrdered(parts: seq<string>)
    ensures forall a, b :: 0 <= a < b < |Versioned(parts)| ==> Versioned(parts)[a] < Versioned(parts)[b]
  {
    if parts != [] {
      VersionedOrdered(parts[..|parts| - 1]);
    }
  }

  lemma {:induction false} CandidatesExact(parts: seq<string>, a: nat)
    requires a < |Versioned(parts)|
    ensures |Candidates(parts)| == |Versioned(parts)|
    ensures Cut(parts[Versioned(parts)[a]]).Some? && Candidates(parts)[a] == Cut(parts[Versioned(parts)[a]]).value.1
  {
    var last := |parts| - 1;
    CandidatesCount(parts[..last]);
    if a < |Versioned(parts[..last])| {
      CandidatesExact(parts[..last], a);
    }
  }

  lemma {:induction false} CandidatesCount(parts: seq<string>)
    ensures |Candidates(parts)| == |Versioned(parts)|
  {
    if parts != [] {
      CandidatesCount(parts[..|parts| - 1]);
    }
  }

  ghost predicate HasKey(parts: seq<string>, key: string) {
    exists i :: 0 <= i < |parts| && IsKey(parts[i], key)
  }

  lemma StampFound(parts: seq<string>)
    requires GoodUpTo(parts, |parts|)
    ensures Stamp(parts).Some? <==> HasKey(parts, "t")
  {
    if HasKey(parts, "t") {
      var i :| 0 <= i < |parts| && IsKey(parts[i], "t");
      var n := SomeLast(parts, i);
      StampAt(parts, n);
      assert GoodPart(parts[n]);
    } else {
      NoStamp(parts);
    }
  }

  lemma CandidatesFound(parts: seq<string>)
    ensures Candidates(parts) != [] <==> HasKey(parts, "v1")
  {
    CandidatesCount(parts);
    if HasKey(parts, "v1") {
      var i: nat :| i < |parts| && IsKey(parts[i], "v1");
      VersionedExact(parts, i);
    } else if Versioned(parts) != [] {
      VersionedExact(parts, Versioned(parts)[0]);
    }
  }

  // A header is accepted if and only if every part has an equals sign, every
  // value of t is an int64, and there is a t and a v1; other keys do not
  // matter.
  lemma ParsedExact(header: string)
    ensures var parts := Split(header);
            Parsed(header).Success? <==>
              && (forall i :: 0 <= i < |parts| ==>
                    Cut(parts[i]).Some? && (Cut(parts[i]).value.0 == "t" ==> ParseInt(Cut(parts[i]).value.1).Some?))
              && HasKey(parts, "t") && HasKey(parts, "v1")
    ensures Parsed(header).Failure? ==> Parsed(header).error == InvalidHeader
  {
    var parts := Split(header);
    CandidatesFound(parts);
    if GoodUpTo(parts, |parts|) {
      StampFound(parts);
    } else {
      var i :| 0 <= i < |parts| && !GoodPart(parts[i]);
    }
  }

  // The last t counts, and all v1 values do, in order.
  lemma ParsedValues(header: string)
    requires Parsed(header).Success?
    ensures var parts, h := Split(header), Parsed(header).value;
            && (forall i: nat :: LastStamp(parts, i) ==> ParseInt(Cut(parts[i]).value.1) == Some(h.timestamp))
            && |h.candidates| == |Versioned(parts)|
            && (forall a, b :: 0 <= a < b < |Versioned(parts)| ==> Versioned(parts)[a] < Versioned(parts)[b])
            && forall a: nat :: a < |Versioned(parts)| ==>
                 Cut(parts[Versioned(parts)[a]]).Some? && h.candidates[a] == Cut(parts[Versioned(parts)[a]]).value.1
  {
    var parts := Split(header);
    CandidatesCount(parts);
    VersionedOrdered(parts);
    forall i: nat | LastStamp(parts, i)
      ensures Stamp(parts) == ParseInt(Cut(parts[i]).value.1)
    {
      StampAt(parts, i);
    }
    forall a: nat | a < |Versioned(parts)|
      ensures Cut(parts[Versioned(parts)[a]]).Some? && Candidates(parts)[a] == Cut(parts[Versioned(parts)[a]]).value.1
    {
      CandidatesExact(parts, a);
    }
  }

  // ---- Verification ---------------------------------------------------------------------------

  const SECOND: int := 1_000_000_000

  // time.Time.Sub of a clock in nanoseconds and a Unix time in seconds:
  // saturates at the ends of int64.
  function Elapsed(now: int, t: int): int {
    var d := now - t * SECOND;
    if d < MIN_INT64 then MIN_INT64 else if d > MAX_INT64 then MAX_INT64 else d
  }

  predicate Recent(now: int, t: int, tolerance: int) {
    tolerance <= 0
    || var d := Elapsed(now, t);
       (if d < 0 then Wrap(-d) else d) <= tolerance
  }

  // Recent means at most tolerance away, in either direction, except that a
  // timestamp more than 292 years ahead always is: negating the smallest
  // duration leaves it negative.
  lemma RecentExact(now: int, t: int, tolerance: int)
    requires Fits(tolerance)
    ensures var d := now - t * SECOND;
            Recent(now, t, tolerance) <==>
              tolerance <= 0 || -tolerance <= d <= tolerance || d <= MIN_INT64
              || (tolerance == MAX_INT64 && d > MIN_INT64)
  {
    assert Wrap(TWO_63) == MIN_INT64;
  }

  predicate Signs(mac: Mac, secret: string, h: Header, body: seq<byte>) {
    exists i :: 0 <= i < |h.candidates| && HexDecode(h.candidates[i]) == Some(mac(secret, h.timestamp, body))
  }

  // None is acceptance.
  function Verdict(mac: Mac, secret: string, header: string, body: seq<byte>, now: int, tolerance: int): Option<Fault> {
    match Parsed(header)
    case Failure(e) => Some(e)
    case Success(h) =>
      if !Recent(now, h.timestamp, tolerance) then Some(TimestampTooOld)
      else if Signs(mac, secret, h, body) then None
      else Some(SignatureMismatch)
  }

  // Why a header is refused: it cannot be read, it is not recent, or no v1
  // value is the hex text of the secret's MAC.
  lemma RefusalExact(mac: Mac, secret: string, header: string, body: seq<byte>, now: int, tolerance: int)
    ensures var v := Verdict(mac, secret, header, body, now, tolerance);
            match Parsed(header)
            case Failure(e) => v == Some(e)
            case Success(h) =>
              && (v == Some(TimestampTooOld) <==> !Recent(now, h.timestamp, tolerance))
              && (v == None <==>
                    && Recent(now, h.timestamp, tolerance)
                    && exists i :: 0 <= i < |h.candidates| && HexDecode(h.candidates[i]) == Some(mac(secret, h.timestamp, body)))
              && (v != None && v != Some(TimestampTooOld) ==> v == Some(SignatureMismatch))
  {
  }

  method VerifyAt(mac: Mac, secret: string, header: string, body: seq<byte>, now: int, tolerance: int)
    returns (r: Option<Fault>)
    ensures r == Verdict(mac, secret, header, body, now, tolerance)
  {
    var parsed := ParseHeader(header);
    if parsed.Failure? {
      return Some(parsed.error);
    }
    var h := parsed.value;
    if tolerance > 0 {
      var diff := Elapsed(now, h.timestamp);
      if diff < 0 {
        diff := Wrap(-diff);
      }
      if diff > tolerance {
        return Some(TimestampTooOld);
      }
    }
    var expected := mac(secret, h.timestamp, body);
    for i := 0 to |h.candidates|
      invariant forall j :: 0 <= j < i ==> HexDecode(h.candidates[j]) != Some(expected)
    {
      var raw := HexDecode(h.candidates[i]);
      if raw.Some? && raw.value == expected {
        return None;
      }
    }
    return Some(SignatureMismatch);
  }

  // A header verifies with every secret it was signed with.
  lemma {:induction false} EverySecretVerifies(mac: Mac, secrets: seq<string>, t: int, body: seq<byte>, secret: string, now: int, tolerance: int)
    requires Fits(t) && secret in secrets && Recent(now, t, tolerance)
    ensures Verdict(mac, secret, HeaderText(mac, secrets, t, body), body, now, tolerance).None?
  {
    PrintParse(mac, secrets, t, body);
    var i :| 0 <= i < |secrets| && secrets[i] == secret;
    HexRoundTrip(mac(secret, t, body));
    assert Signed(mac, secrets, t, body)[i] == Sign(mac, secret, t, body);
  }

  // And with no other: only a secret whose MAC coincides with one of theirs.
  lemma {:induction false} OnlyThoseVerify(mac: Mac, secrets: seq<string>, t: int, body: seq<byte>, secret: string, now: int, tolerance: int)
    requires Fits(t) && secrets != [] && Recent(now, t, tolerance)
    ensures Verdict(mac, secret, HeaderText(mac, secrets, t, body), body, now, tolerance).None?
       <==> exists i :: 0 <= i < |secrets| && mac(secrets[i], t, body) == mac(secret, t, body)
  {
    PrintParse(mac, secrets, t, body);
    var sigs := Signed(mac, secrets, t, body);
    forall i | 0 <= i < |secrets|
      ensures HexDecode(sigs[i]) == Some(mac(secrets[i], t, body))
    {
      HexRoundTrip(mac(secrets[i], t, body));
    }
  }
}
