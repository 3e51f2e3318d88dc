/** Go's fixed-width integers: wrap-around, conversion and truncating division. */
module Integers {
  import opened Metadata

  const TWO_63 := 0x8000_0000_0000_0000

  type Int64 = n: int | -TWO_63 <= n < TWO_63

  /** The int64 an unbounded result wraps around to. */
  function Wrap(n: int): Int64 {
    (n + TWO_63) % TWO_64 - TWO_63
  }

  /** `int64(u)`. */
  function ToInt64(u: UInt64): Int64 {
    if u < TWO_63 then u else u - TWO_64
  }

  /** `uint64(i)`. */
  function ToUInt64(i: Int64): UInt64 {
    if i >= 0 then i else i + TWO_64
  }

  /** Division as Go does it: towards zero. */
  function Quotient(a: int, b: int): int
    requires b > 0
  {
    if a >= 0 then a / b else -((-a) / b)
  }

  /** The wrapped result is the one int64 that differs from the unbounded one by a multiple of 2^64. */
  lemma WrapExactly(n: int, m: Int64, q: int)
    requires n == m + q * TWO_64
    ensures Wrap(n) == m
  {
    var d, r := (n + TWO_63) / TWO_64, (n + TWO_63) % TWO_64;
    assert n + TWO_63 == d * TWO_64 + r;
    assert (d - q) * TWO_64 == m + TWO_63 - r;
    assert d == q;
  }

  /** The quotient is the one whose remainder is smaller than the divisor and has the sign of the dividend. */
  lemma QuotientExactly(a: int, b: int, q: int)
    requires b > 0
    ensures q == Quotient(a, b) <==> (if a >= 0 then 0 <= a - q * b < b else -b < a - q * b <= 0)
  {
    if a >= 0 {
      DivisionExactly(a, b, q);
    } else {
      DivisionExactly(-a, b, -q);
      assert (-q) * b == -(q * b);
    }
  }

  lemma DivisionExactly(a: nat, b: int, q: int)
    requires b > 0
    ensures q == a / b <==> 0 <= a - q * b < b
  {
    var p := a / b;
    assert a == p * b + a % b;
    if q > p {
      assert q * b >= (p + 1) * b;
    } else if q < p {
      assert (q + 1) * b <= p * b;
    }
  }

  /** The two conversions keep the number up to a multiple of 2^64. */
  lemma ConversionsExact(i: Int64, u: UInt64)
    ensures ToUInt64(i) == i || ToUInt64(i) == i + TWO_64
    ensures ToInt64(u) == u || ToInt64(u) == u - TWO_64
  {
  }
}
