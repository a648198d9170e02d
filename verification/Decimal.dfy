// Decimal text of integers: what strconv.FormatInt, strconv.ParseInt and the
// "%d" verb produce and accept in base 10.
module Decimal {
  import opened Int64
  import opened Wrappers

  predicate IsDigit(c: char) {
    '0' <= c <= '9'
  }

  predicate AllDigits(s: string) {
    forall i :: 0 <= i < |s| ==> IsDigit(s[i])
  }

  function DigitValue(c: char): (d: nat)
    requires IsDigit(c)
    ensures d <= 9
  {
    c as int - '0' as int
  }

  function DigitChar(d: nat): (c: char)
    requires d <= 9
    ensures IsDigit(c) && DigitValue(c) == d && c as int == '0' as int + d
  {
    ('0' as int + d) as char
  }

  // The number a digit string denotes; the empty string denotes 0.
  function Value(s: string): nat
    requires AllDigits(s)
  {
    if s == "" then 0 else 10 * Value(s[..|s| - 1]) + DigitValue(s[|s| - 1])
  }

  // The shortest digit string of n.
  function NatText(n: nat): (s: string)
    ensures AllDigits(s) && s != ""
    ensures Value(s) == n
  {
    if n < 10 then
      var s := [DigitChar(n)];
      assert s[..0] == "";
      s
    else
      var s := NatText(n / 10) + [DigitChar(n % 10)];
      assert s[..|s| - 1] == NatText(n / 10);
      s
  }

  function Signed(negative: bool, magnitude: int): int {
    if negative then -magnitude else magnitude
  }

  function IntText(n: int): string {
    if n < 0 then "-" + NatText(-n) else NatText(n)
  }

  // strconv.ParseInt(s, 10, 64): an optional sign, at least one digit,
  // nothing else, and a value inside int64.
  function ParseInt(s: string): Option<int> {
    var negative := s != "" && s[0] == '-';
    var digits := if s != "" && (s[0] == '-' || s[0] == '+') then s[1..] else s;
    if digits == "" || !AllDigits(digits) then None
    else
      var v := Signed(negative, Value(digits));
      if Fits(v) then Some(v) else None
  }

  lemma ParseIntText(n: int)
    ensures ParseInt(IntText(n)) == if Fits(n) then Some(n) else None
  {
    if n < 0 {
      var s := IntText(n);
      assert s[1..] == NatText(-n);
    } else {
      var s := NatText(n);
      assert IsDigit(s[0]);
    }
  }

  // Every character of a decimal integer is a digit or the minus sign.
  lemma IntTextChars(n: int)
    ensures IntText(n) != ""
    ensures forall i :: 0 <= i < |IntText(n)| ==> IsDigit(IntText(n)[i]) || IntText(n)[i] == '-'
  {
  }

  function Pow10(e: nat): (p: nat)
    ensures p >= 1
  {
    if e == 0 then 1 else 10 * Pow10(e - 1)
  }

  function Zeros(n: nat): (s: string)
    ensures |s| == n && AllDigits(s)
  {
    seq(n, i => '0')
  }

  lemma ValueSnoc(s: string, c: char)
    requires AllDigits(s) && IsDigit(c)
    ensures AllDigits(s + [c])
    ensures Value(s + [c]) == 10 * Value(s) + DigitValue(c)
  {
    assert (s + [c])[..|s + [c]| - 1] == s;
  }

  lemma {:induction false} ValueAppendZeros(s: string, n: nat)
    requires AllDigits(s)
    ensures AllDigits(s + Zeros(n))
    ensures Value(s + Zeros(n)) == Value(s) * Pow10(n)
  {
    if n == 0 {
      assert s + Zeros(0) == s;
    } else {
      ValueAppendZeros(s, n - 1);
      assert s + Zeros(n) == (s + Zeros(n - 1)) + ['0'];
      ValueSnoc(s + Zeros(n - 1), '0');
      TimesTen(Value(s), Pow10(n - 1));
    }
  }

  lemma TimesTen(v: nat, p: nat)
    ensures 10 * (v * p) == v * (10 * p)
  {
  }

  // Leading zeros do not change the value.
  lemma {:induction false} ValuePrependZeros(n: nat, s: string)
    requires AllDigits(s)
    ensures AllDigits(Zeros(n) + s)
    ensures Value(Zeros(n) + s) == Value(s)
  {
    if s == "" {
      assert Zeros(n) + s == Zeros(n);
      ZerosValue(n);
    } else {
      var c := s[|s| - 1];
      ValuePrependZeros(n, s[..|s| - 1]);
      assert Zeros(n) + s == (Zeros(n) + s[..|s| - 1]) + [c];
      ValueSnoc(Zeros(n) + s[..|s| - 1], c);
    }
  }

  lemma {:induction false} ZerosValue(n: nat)
    ensures Value(Zeros(n)) == 0
  {
    if n > 0 {
      assert Zeros(n) == Zeros(n - 1) + ['0'];
      ZerosValue(n - 1);
      ValueSnoc(Zeros(n - 1), '0');
    }
  }

  // A prefix never denotes more than the whole.
  lemma {:induction false} ValuePrefix(s: string, i: nat)
    requires AllDigits(s) && i <= |s|
    ensures Value(s[..i]) <= Value(s)
    decreases |s| - i
  {
    if i == |s| {
      assert s[..i] == s;
    } else {
      ValuePrefix(s, i + 1);
      assert s[..i + 1] == s[..i] + [s[i]];
      ValueSnoc(s[..i], s[i]);
    }
  }
}
