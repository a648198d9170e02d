// Integer money in minor units: libs/go/money/money.go.
module Money {
  import opened Int64
  import opened Wrappers
  import opened Decimal

  datatype Amount = Amount(asset: string, units: int)

  datatype MoneyError = AssetMismatch | Overflow

  datatype ParseError = InvalidDecimal | TooManyDigits | OutOfRange

  predicate AssetChar(c: char) {
    'A' <= c <= 'Z' || '0' <= c <= '9'
  }

  // 1 to 12 characters, each an upper-case letter or a digit.
  ghost predicate ValidAsset(code: string) {
    1 <= |code| <= 12 && forall i :: 0 <= i < |code| ==> AssetChar(code[i])
  }

  method ValidateAssetCode(code: string) returns (ok: bool)
    ensures ok <==> ValidAsset(code)
    ensures ok <==> 1 <= |code| <= 12 && forall i :: 0 <= i < |code| ==> 'A' <= code[i] <= 'Z' || '0' <= code[i] <= '9'
  {
    if |code| == 0 || |code| > 12 {
      return false;
    }
    for i := 0 to |code|
      invariant forall j :: 0 <= j < i ==> AssetChar(code[j])
    {
      if (code[i] < 'A' || code[i] > 'Z') && (code[i] < '0' || code[i] > '9') {
        return false;
      }
    }
    return true;
  }

  // The sum wraps first and its sign is inspected afterwards.
  function Add(a: Amount, b: Amount): (r: Result<Amount, MoneyError>)
    requires Fits(a.units) && Fits(b.units)
    ensures r == Failure(AssetMismatch) <==> a.asset != b.asset
    ensures a.asset == b.asset ==> (r.Success? <==> Fits(a.units + b.units))
    ensures r.Success? ==> r.value == Amount(a.asset, a.units + b.units)
  {
    if a.asset != b.asset then Failure(AssetMismatch)
    else
      var sum := Wrap(a.units + b.units);
      if (a.units > 0 && b.units > 0 && sum < 0) || (a.units < 0 && b.units < 0 && sum >= 0)
      then Failure(Overflow)
      else Success(Amount(a.asset, sum))
  }

  function Sub(a: Amount, b: Amount): (r: Result<Amount, MoneyError>)
    requires Fits(a.units) && Fits(b.units)
    ensures r == Failure(AssetMismatch) <==> a.asset != b.asset
    ensures a.asset == b.asset ==> (r.Success? <==> Fits(a.units - b.units))
    ensures r.Success? ==> r.value == Amount(a.asset, a.units - b.units)
  {
    if a.asset != b.asset then Failure(AssetMismatch)
    else if b.units == MIN_INT64 then
      if a.units >= 0 then Failure(Overflow)
      else Success(Amount(a.asset, Wrap(a.units - b.units)))
    else
      match Add(a, Amount(b.asset, -b.units))
      case Success(v) => Success(v)
      case Failure(_) => Failure(Overflow)
  }

  function Neg(a: Amount): (r: Result<Amount, MoneyError>)
    requires Fits(a.units)
    ensures r.Success? <==> Fits(-a.units)
    ensures r.Success? ==> Fits(r.value.units) && Add(a, r.value) == Success(Amount(a.asset, 0))
  {
    if a.units == MIN_INT64 then Failure(Overflow) else Success(Amount(a.asset, -a.units))
  }

  // ---- Decimal strings ----------------------------------------------------

  datatype Sign = NoSign | Plus | Minus

  // One reading of a decimal string: sign, digits before the point, whether a
  // point is written, digits after it.
  datatype Literal = Literal(sign: Sign, whole: string, point: bool, fraction: string)

  function SignText(s: Sign): string {
    match s
    case NoSign => ""
    case Plus => "+"
    case Minus => "-"
  }

  function Unsigned(l: Literal): string {
    l.whole + (if l.point then "." + l.fraction else "")
  }

  // The grammar of accepted numbers, independent of how they are scanned:
  // either digit group may be empty, but not both.
  ghost predicate Spells(l: Literal, s: string) {
    && AllDigits(l.whole) && AllDigits(l.fraction)
    && (l.whole != "" || l.fraction != "")
    && (l.point || l.fraction == "")
    && s == SignText(l.sign) + Unsigned(l)
  }

  // The literal's exact value times 10^exp: (whole.fraction) * 10^exp.
  ghost function ExactUnits(l: Literal, exp: nat): int
    requires AllDigits(l.whole) && AllDigits(l.fraction)
    requires |l.fraction| <= exp
  {
    Signed(l.sign == Minus, Value(l.whole + l.fraction) * Pow10(exp - |l.fraction|))
  }

  // What a literal stands for at a given exponent.
  ghost function Outcome(l: Literal, exp: nat): Result<int64, ParseError>
    requires AllDigits(l.whole) && AllDigits(l.fraction)
  {
    if |l.fraction| > exp then Failure(TooManyDigits)
    else if !Fits(ExactUnits(l, exp)) then Failure(OutOfRange)
    else Success(ExactUnits(l, exp) as int64)
  }

  // What parsing promises about every input: exactly the well-formed strings
  // are read, and each as what it stands for.
  ghost predicate Parses(s: string, exp: int, r: Result<int64, ParseError>) {
    && (r == Failure(InvalidDecimal) <==> exp < 0 || forall l :: !Spells(l, s))
    && (forall l :: Spells(l, s) && exp >= 0 ==> r == Outcome(l, exp))
  }

  function IndexOfDot(s: string): (i: int)
    ensures -1 <= i < |s|
    ensures i == -1 ==> forall j :: 0 <= j < |s| ==> s[j] != '.'
    ensures i >= 0 ==> s[i] == '.' && forall j :: 0 <= j < i ==> s[j] != '.'
  {
    if s == "" then -1
    else if s[0] == '.' then 0
    else
      var rest := IndexOfDot(s[1..]);
      if rest == -1 then -1 else rest + 1
  }

  lemma {:induction false} SignDetermined(l: Literal, s: string)
    requires Spells(l, s)
    ensures s != ""
    ensures l.sign == if s[0] == '-' then Minus else if s[0] == '+' then Plus else NoSign
    ensures s[|SignText(l.sign)|..] == Unsigned(l)
  {
    var body := Unsigned(l);
    assert s == SignText(l.sign) + body;
    assert body != "";
    if l.sign == NoSign {
      assert s[0] == body[0];
      assert l.whole != "" ==> body[0] == l.whole[0];
    }
  }

  lemma BodyDetermined(l: Literal, body: string)
    requires AllDigits(l.whole) && AllDigits(l.fraction)
    requires body == Unsigned(l)
    requires l.point || l.fraction == ""
    ensures var i := IndexOfDot(body);
            && l.point == (i >= 0)
            && l.whole == (if i >= 0 then body[..i] else body)
            && l.fraction == (if i >= 0 then body[i + 1..] else "")
  {
    var i := IndexOfDot(body);
    if l.point {
      assert body[|l.whole|] == '.';
      assert forall j :: 0 <= j < |l.whole| ==> body[j] == l.whole[j];
      assert i == |l.whole|;
      assert body[..i] == l.whole;
      assert body[i + 1..] == l.fraction;
    } else {
      assert body == l.whole;
    }
  }

  // The only possible reading of s.
  ghost function Reading(s: string): Literal
    requires s != ""
  {
    var sign := if s[0] == '-' then Minus else if s[0] == '+' then Plus else NoSign;
    var body := s[|SignText(sign)|..];
    var i := IndexOfDot(body);
    Literal(sign, if i >= 0 then body[..i] else body, i >= 0, if i >= 0 then body[i + 1..] else "")
  }

  lemma {:induction false} OnlyReading(l: Literal, s: string)
    requires Spells(l, s)
    ensures s != "" && l == Reading(s)
  {
    SignDetermined(l, s);
    var body := s[|SignText(l.sign)|..];
    assert body == Unsigned(l);
    BodyDetermined(l, body);
    ReadingOf(s, l.sign, body);
  }

  // Reading a string whose sign has been determined.
  lemma ReadingOf(s: string, sign: Sign, body: string)
    requires s != "" && sign == if s[0] == '-' then Minus else if s[0] == '+' then Plus else NoSign
    requires body == s[|SignText(sign)|..]
    ensures var i := IndexOfDot(body);
            Reading(s) == Literal(sign, if i >= 0 then body[..i] else body, i >= 0, if i >= 0 then body[i + 1..] else "")
  {
  }

  // A string has at most one reading as a decimal number.
  lemma {:induction false} SpellsUnique(l: Literal, k: Literal, s: string)
    requires Spells(l, s) && Spells(k, s)
    ensures l == k
  {
    OnlyReading(l, s);
    OnlyReading(k, s);
  }

  lemma {:induction false} Malformed(s: string, exp: int, r: Result<int64, ParseError>)
    requires exp < 0 || s == "" || !Spells(Reading(s), s)
    requires r == Failure(InvalidDecimal)
    ensures Parses(s, exp, r)
  {
    forall l | Spells(l, s)
      ensures exp < 0
    {
      OnlyReading(l, s);
    }
  }

  lemma {:induction false} WellFormed(s: string, exp: nat, r: Result<int64, ParseError>)
    requires s != "" && Spells(Reading(s), s)
    requires r == Outcome(Reading(s), exp)
    ensures Parses(s, exp, r)
  {
    OneReading(s);
    assert Spells(Reading(s), s);
  }

  lemma {:induction false} OneReading(s: string)
    requires s != ""
    ensures forall l :: Spells(l, s) ==> l == Reading(s)
  {
    forall l | Spells(l, s)
      ensures l == Reading(s)
    {
      OnlyReading(l, s);
    }
  }

  ghost predicate Readable(l: Literal) {
    AllDigits(l.whole) && AllDigits(l.fraction) && (l.whole != "" || l.fraction != "")
  }

  lemma {:induction false} ReadingSpells(s: string)
    requires s != ""
    ensures Spells(Reading(s), s) <==> Readable(Reading(s))
  {
    ReadingText(s);
  }

  lemma {:induction false} ReadingText(s: string)
    requires s != ""
    ensures s == SignText(Reading(s).sign) + Unsigned(Reading(s))
    ensures Reading(s).point || Reading(s).fraction == ""
  {
    var l := Reading(s);
    var n := |SignText(l.sign)|;
    assert s[..n] == SignText(l.sign);
    assert s == s[..n] + s[n..];
    var i := IndexOfDot(s[n..]);
    if i >= 0 {
      CutAt(s[n..], i);
    }
  }

  lemma {:induction false} CutAt(body: string, i: nat)
    requires i < |body| && body[i] == '.'
    ensures body == body[..i] + ("." + body[i + 1..])
  {
    assert body == body[..i] + ([body[i]] + body[i + 1..]);
  }

  // Padding the fraction to exp digits spells out the exact value times 10^exp.
  lemma {:induction false} PaddedMagnitude(l: Literal, exp: nat)
    requires AllDigits(l.whole) && AllDigits(l.fraction) && |l.fraction| <= exp
    ensures var whole := if l.whole == "" then "0" else l.whole;
            var digits := whole + (l.fraction + Zeros(exp - |l.fraction|));
            && AllDigits(digits)
            && ExactUnits(l, exp) == Signed(l.sign == Minus, Value(digits))
  {
    var n := exp - |l.fraction|;
    var whole := if l.whole == "" then "0" else l.whole;
    assert whole + (l.fraction + Zeros(n)) == whole + l.fraction + Zeros(n);
    ValueAppendZeros(whole + l.fraction, n);
    if l.whole == "" {
      assert whole == Zeros(1);
      ValuePrependZeros(1, l.fraction);
      assert l.whole + l.fraction == l.fraction;
    }
  }

  lemma PaddedOutcome(l: Literal, exp: nat, intPart: string, fracPart: string)
    requires Readable(l) && |l.fraction| <= exp
    requires intPart == if l.whole == "" then "0" else l.whole
    requires fracPart == l.fraction + Zeros(exp - |l.fraction|)
    ensures AllDigits(intPart + fracPart)
    ensures var exact := Signed(l.sign == Minus, Value(intPart + fracPart));
            Outcome(l, exp) == if Fits(exact) then Success(exact as int64) else Failure(OutOfRange)
  {
    PaddedMagnitude(l, exp);
  }

  method OnlyDigits(part: string) returns (ok: bool)
    ensures ok <==> AllDigits(part)
  {
    for i := 0 to |part|
      invariant AllDigits(part[..i])
    {
      if part[i] < '0' || part[i] > '9' {
        return false;
      }
      assert part[..i + 1] == part[..i] + [part[i]];
    }
    assert part[..|part|] == part;
    return true;
  }

  // Digit by digit accumulation in int64: every intermediate sum and product
  // stays in range, and the one value past the maximum that still fits, the
  // minimum, is caught on its last digit.
  method Accumulate(digits: string, negative: bool) returns (r: Option<int64>)
    requires AllDigits(digits)
    ensures var exact := Signed(negative, Value(digits));
            r == if Fits(exact) then Some(exact as int64) else None
  {
    var units: int64 := 0;
    for i := 0 to |digits|
      invariant units >= 0
      invariant units as int == Value(digits[..i])
    {
      var d: int64 := DigitValue(digits[i]) as int64;
      ValuePrefix(digits, i + 1);
      assert digits[..i + 1] == digits[..i] + [digits[i]];
      ValueSnoc(digits[..i], digits[i]);
      if units > 0x7fff_ffff_ffff_ffff / 10 {
        return None;
      }
      units := units * 10;
      if units > 0x7fff_ffff_ffff_ffff - d {
        if negative && units == 0x7fff_ffff_ffff_ffff - d + 1 && i == |digits| - 1 {
          assert digits[..i + 1] == digits;
          return Some(-0x8000_0000_0000_0000);
        }
        if i < |digits| - 1 {
          ValuePrefix(digits, i + 2);
          assert digits[..i + 2] == digits[..i + 1] + [digits[i + 1]];
          ValueSnoc(digits[..i + 1], digits[i + 1]);
        } else {
          assert digits[..i + 1] == digits;
        }
        return None;
      }
      units := units + d;
    }
    assert digits[..|digits|] == digits;
    return Some(if negative then -units else units);
  }

  method ParseUnits(decimal: string, exp: int) returns (r: Result<int64, ParseError>)
    ensures Parses(decimal, exp, r)
    ensures forall l :: Spells(l, decimal) && exp >= 0 ==>
              && (r == Failure(TooManyDigits) <==> |l.fraction| > exp)
              && (r == Failure(OutOfRange) <==> |l.fraction| <= exp && !Fits(ExactUnits(l, exp)))
              && (r.Success? ==> |l.fraction| <= exp && r.value as int == ExactUnits(l, exp))
  {
    r := Failure(InvalidDecimal);
    if exp < 0 || decimal == "" {
      Malformed(decimal, exp, r);
      return;
    }
    var negative, intPart, fracPart, ok := Scan(decimal);
    ReadingSpells(decimal);
    if !ok {
      Malformed(decimal, exp, r);
      return;
    }
    if |fracPart| > exp {
      r := Failure(TooManyDigits);
      WellFormed(decimal, exp, r);
      return;
    }
    fracPart := fracPart + Zeros(exp - |fracPart|);
    PaddedOutcome(Reading(decimal), exp, intPart, fracPart);
    var units := Accumulate(intPart + fracPart, negative);
    r := if units.Some? then Success(units.value) else Failure(OutOfRange);
    WellFormed(decimal, exp, r);
  }

  method StripSign(decimal: string) returns (negative: bool, s: string)
    requires decimal != ""
    ensures negative == (Reading(decimal).sign == Minus)
    ensures s == decimal[|SignText(Reading(decimal).sign)|..]
  {
    negative, s := false, decimal;
    if s[0] == '-' {
      negative := true;
      s := s[1..];
    } else if s[0] == '+' {
      s := s[1..];
    }
  }

  // The syntactic half of ParseUnits: strip the sign, cut at the point,
  // default an empty integer part to "0" and check for stray characters.
  method Scan(decimal: string) returns (negative: bool, intPart: string, fracPart: string, ok: bool)
    requires decimal != ""
    ensures var l := Reading(decimal);
            && ok == Readable(l)
            && (ok ==> negative == (l.sign == Minus))
            && (ok ==> intPart == if l.whole == "" then "0" else l.whole)
            && (ok ==> fracPart == l.fraction)
  {
    var s;
    negative, s := StripSign(decimal);
    intPart, fracPart, ok := SplitAtDot(s);
    assert intPart == Reading(decimal).whole && fracPart == Reading(decimal).fraction;
    if s == "" || s == "." {
      return false, "", "", false;
    }
    if ok {
      ok := ReadableParts(intPart, fracPart);
      if intPart == "" {
        intPart := "0";
      }
    }
  }

  // An empty integer part counts as "0".
  method ReadableParts(intPart: string, fracPart: string) returns (ok: bool)
    requires intPart != "" || fracPart != ""
    ensures ok <==> AllDigits(intPart) && AllDigits(fracPart)
  {
    var intOk := OnlyDigits(if intPart == "" then "0" else intPart);
    var fracOk := OnlyDigits(fracPart);
    ok := intOk && fracOk;
  }

  // Without digits on either side: the empty string or a lone point.
  lemma OnlyDot(s: string)
    ensures var i := IndexOfDot(s);
            (if i >= 0 then i == 0 && |s| == 1 else s == "") <==> s == "" || s == "."
  {
    if |s| == 1 {
      assert s == [s[0]];
    }
  }

  method SplitAtDot(s: string) returns (intPart: string, fracPart: string, ok: bool)
    ensures var i := IndexOfDot(s);
            && intPart == (if i >= 0 then s[..i] else s)
            && fracPart == (if i >= 0 then s[i + 1..] else "")
    ensures !ok ==> !AllDigits(fracPart)
    ensures intPart == "" && fracPart == "" <==> s == "" || s == "."
  {
    intPart, fracPart, ok := s, "", true;
    var i := IndexOfDot(s);
    OnlyDot(s);
    if i >= 0 {
      assert |s[..i]| == i && |s[i + 1..]| == |s| - i - 1;
      intPart, fracPart := s[..i], s[i + 1..];
      var j := IndexOfDot(fracPart);
      if j >= 0 {
        assert !IsDigit(fracPart[j]);
        ok := false;
      }
    }
  }

  // FormatWithExponent. The absolute value goes through uint64 so that the
  // minimum int64 is handled.
  function FormatWithExponent(u: int64, exp: int): string {
    if exp <= 0 then IntText(u as int)
    else
      var sign := if u < 0 then "-" else "";
      var abs: uint64 := if u < 0 then -(u + 1) as uint64 + 1 else u as uint64;
      sign + PlacePoint(NatText(abs as nat), exp)
  }

  // Digits with a point before the last exp of them, padded with leading
  // zeros so that at least one digit precedes the point.
  function PlacePoint(digits: string, exp: nat): string
    requires exp > 0
  {
    var padded := if |digits| <= exp then Zeros(exp - |digits| + 1) + digits else digits;
    var cut := |padded| - exp;
    padded[..cut] + "." + padded[cut..]
  }

  // A formatted amount is a well-formed decimal with exactly exp decimals,
  // and its exact value is the amount that was formatted.
  lemma FormatIsExact(u: int64, exp: nat)
    ensures exists l :: Spells(l, FormatWithExponent(u, exp))
    ensures forall l :: Spells(l, FormatWithExponent(u, exp)) ==> |l.fraction| == exp && ExactUnits(l, exp) == u as int
  {
    var k := FormattedLiteral(u, exp);
    forall l | Spells(l, FormatWithExponent(u, exp))
      ensures l == k
    {
      SpellsUnique(l, k, FormatWithExponent(u, exp));
    }
  }

  lemma FormattedLiteral(u: int64, exp: nat) returns (l: Literal)
    ensures Spells(l, FormatWithExponent(u, exp))
    ensures |l.fraction| == exp
    ensures ExactUnits(l, exp) == u as int
  {
    var sign := if u < 0 then Minus else NoSign;
    var abs: nat := if u < 0 then -(u as int) else u as int;
    if exp == 0 {
      l := Literal(sign, NatText(abs), false, "");
      assert l.whole + l.fraction == NatText(abs);
      assert FormatWithExponent(u, 0) == SignText(sign) + NatText(abs) + "";
    } else {
      var whole, fraction := PlacedParts(NatText(abs), exp);
      l := Literal(sign, whole, true, fraction);
      var text := PlacePoint(NatText(abs), exp);
      assert FormatWithExponent(u, exp) == SignText(sign) + text;
      assert SignText(sign) + text == SignText(sign) + whole + ("." + fraction);
    }
  }

  lemma PlacedParts(digits: string, exp: nat) returns (whole: string, fraction: string)
    requires AllDigits(digits) && exp > 0
    ensures AllDigits(whole) && whole != "" && AllDigits(fraction) && |fraction| == exp
    ensures PlacePoint(digits, exp) == whole + ("." + fraction)
    ensures Value(whole + fraction) == Value(digits)
  {
    var padded := digits;
    if |digits| <= exp {
      padded := Zeros(exp - |digits| + 1) + digits;
      ValuePrependZeros(exp - |digits| + 1, digits);
    }
    var cut := |padded| - exp;
    whole, fraction := padded[..cut], padded[cut..];
    CutParts(padded, cut);
    assert PlacePoint(digits, exp) == whole + "." + fraction;
  }

  lemma CutParts(s: string, cut: nat)
    requires AllDigits(s) && cut <= |s|
    ensures s[..cut] + s[cut..] == s && AllDigits(s[..cut]) && AllDigits(s[cut..])
    ensures s[..cut] + "." + s[cut..] == s[..cut] + ("." + s[cut..])
  {
  }

  // Formatting and parsing back returns the amount, for every int64 and every
  // exponent.
  lemma ParseFormatted(u: int64, exp: nat, r: Result<int64, ParseError>)
    requires Parses(FormatWithExponent(u, exp), exp, r)
    ensures r == Success(u)
  {
    var l := FormattedLiteral(u, exp);
    assert Spells(l, FormatWithExponent(u, exp));
  }
}
