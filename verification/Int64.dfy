// The machine integers of the services: Go's int64 and PostgreSQL's BIGINT
// have the same range; Go wraps around on overflow, PostgreSQL aborts.
module Int64 {
  const TWO_63: int := 0x8000_0000_0000_0000
  const TWO_64: int := 0x1_0000_0000_0000_0000
  const MAX_INT64: int := TWO_63 - 1
  const MIN_INT64: int := -TWO_63

  newtype int64 = x: int | -0x8000_0000_0000_0000 <= x < 0x8000_0000_0000_0000
  newtype uint64 = x: int | 0 <= x < 0x1_0000_0000_0000_0000

  predicate Fits(n: int) {
    MIN_INT64 <= n <= MAX_INT64
  }

  // Go's two's complement result for an exact value n.
  function Wrap(n: int): (r: int)
    ensures Fits(r)
    ensures Fits(n) <==> r == n
  {
    (n + TWO_63) % TWO_64 - TWO_63
  }

  // Wrapping once at the end or at every addition is the same: the wrapped
  // running total depends only on the exact running total.
  lemma WrapAbsorbs(a: int, b: int)
    ensures Wrap(Wrap(a) + b) == Wrap(a + b)
  {
    var q := (a + TWO_63) / TWO_64;
    assert Wrap(a) == a - q * TWO_64;
    var m := a + b + TWO_63;
    ModShift(m, q);
  }

  lemma ModShift(m: int, q: int)
    ensures (m - q * TWO_64) % TWO_64 == m % TWO_64
  {
    var d := m / TWO_64;
    var r := m % TWO_64;
    assert m - q * TWO_64 == (d - q) * TWO_64 + r;
    DivModUnique(m - q * TWO_64, d - q, r);
  }

  lemma DivModUnique(n: int, d: int, r: int)
    requires 0 <= r < TWO_64
    requires n == d * TWO_64 + r
    ensures n % TWO_64 == r
  {
  }
}
