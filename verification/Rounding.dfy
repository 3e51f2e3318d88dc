/** `getRoundedCapacity` (pkg/driver/controller.go) in int64 arithmetic. */
module Rounding {
  import opened Metadata
  import opened Integers

  const MI := 1024 * 1024
  const GI := 1024 * 1024 * 1024

  /** The largest request that can be rounded up without leaving int64. */
  const LAST_ROUNDABLE := TWO_63 - GI

  function GetRoundedCapacity(size: Int64): Int64 {
    if size > GI then Wrap(Quotient(Wrap(size + GI - 1), GI) * GI)
    else Wrap(Quotient(Wrap(size + MI - 1), MI) * MI)
  }

  function Unit(size: Int64): int {
    if size > GI then GI else MI
  }

  lemma RoundUp(size: int, unit: int)
    requires size >= 0 && unit > 0
    ensures var r := (size + unit - 1) / unit * unit;
      size <= r < size + unit && r % unit == 0 && r >= 0
  {
    var q := (size + unit - 1) / unit;
    assert (size + unit - 1) == q * unit + (size + unit - 1) % unit;
    MultipleMod(q, unit);
  }

  lemma TimesMonotone(a: int, b: int, unit: int)
    requires unit > 0
    ensures a <= b ==> a * unit <= b * unit
  {
  }

  lemma MultipleMod(q: int, unit: int)
    requires unit > 0
    ensures (q * unit) % unit == 0
  {
    var d := (q * unit) / unit;
    assert q * unit == d * unit + (q * unit) % unit;
    var e := q - d;
    assert e * unit == (q * unit) % unit;
    TimesMonotone(1, e, unit);
    TimesMonotone(e, -1, unit);
  }

  /** Up to the bound nothing wraps: the result is the next multiple of the unit. */
  lemma RoundedExactly(size: Int64)
    requires 0 <= size <= LAST_ROUNDABLE
    ensures GetRoundedCapacity(size) == (size + Unit(size) - 1) / Unit(size) * Unit(size)
    ensures size <= GetRoundedCapacity(size) < size + Unit(size)
    ensures GetRoundedCapacity(size) % Unit(size) == 0
    ensures GetRoundedCapacity(size) <= TWO_63 - GI
  {
    var u := Unit(size);
    RoundUp(size, u);
    var r := (size + u - 1) / u * u;
    if size > GI {
      assert LAST_ROUNDABLE == 0x1_FFFF_FFFF * GI;
      MultiplesApart(r / u, 0x1_FFFF_FFFF, u);
      assert r == r / u * u;
    }
    assert Wrap(size + u - 1) == size + u - 1;
    assert Wrap(r) == r;
  }

  lemma MultiplesApart(a: int, b: int, unit: int)
    requires unit > 0 && a * unit < b * unit + unit
    ensures a <= b
  {
    TimesMonotone(b + 1, a, unit);
  }

  /**
   * The bound is tight: a positive request is rounded to at least itself if and only if it is within
   * the bound; one byte more wraps around to a negative capacity.
   */
  lemma RoundingBound(size: Int64)
    requires size > 0
    ensures GetRoundedCapacity(size) >= size <==> size <= LAST_ROUNDABLE
    ensures size > LAST_ROUNDABLE ==> GetRoundedCapacity(size) < 0
  {
    if size <= LAST_ROUNDABLE {
      RoundedExactly(size);
    } else {
      var w := size + GI - 1 - TWO_64;
      assert Wrap(size + GI - 1) == w;
      var q := (-w) / GI;
      assert -TWO_63 <= w < -GI;
      assert q >= 1;
      assert q * GI <= -w <= TWO_63;
      assert Quotient(w, GI) * GI == -(q * GI) by { NegativeTimes(q, GI); }
    }
  }

  /** Past the bound the capacity is the least int64, or a gibibyte more. */
  lemma RoundedPastBound(size: Int64)
    requires size > LAST_ROUNDABLE
    ensures GetRoundedCapacity(size) == if size == LAST_ROUNDABLE + 1 then -TWO_63 else -TWO_63 + GI
  {
    var w := size + GI - 1 - TWO_64;
    WrapExactly(size + GI - 1, w, 1);
    var q := (-w) / GI;
    assert TWO_63 == 0x2_0000_0000 * GI;
    assert q == if size == LAST_ROUNDABLE + 1 then 0x2_0000_0000 else 0x1_FFFF_FFFF;
    assert Quotient(w, GI) == -q;
    assert Wrap(-q * GI) == -q * GI;
  }

  /** A negative request is cut towards zero after the unit was added, so a multiple of 1Mi goes up by one. */
  lemma RoundedNegative(size: Int64)
    requires size < 0
    ensures var r := GetRoundedCapacity(size);
      && r % MI == 0 && r <= 0 && (size > -MI ==> r == 0)
      && (size <= -MI ==> size + MI - 1 <= r < size + 2 * MI - 1)
  {
    var w := size + MI - 1;
    assert Wrap(w) == w;
    var q := Quotient(w, MI);
    QuotientExactly(w, MI, q);
    assert w <= q * MI <= 0 || q == 0;
    assert Wrap(q * MI) == q * MI;
    MultipleMod(q, MI);
  }

  lemma NegativeTimes(q: int, unit: int)
    ensures (-q) * unit == -(q * unit)
  {
  }

  /** Rounding a rounded capacity changes nothing, and larger requests get at least as much. */
  lemma RoundingStable(a: Int64, b: Int64)
    requires 0 <= a <= b <= LAST_ROUNDABLE
    ensures GetRoundedCapacity(GetRoundedCapacity(a)) == GetRoundedCapacity(a)
    ensures GetRoundedCapacity(a) <= GetRoundedCapacity(b)
  {
    RoundedExactly(a);
    RoundedExactly(b);
    StaysBelowGi(a);
    RoundedFixed(a);
    if Unit(a) == Unit(b) {
      MultiplesOrdered(a, b, Unit(a));
    }
  }

  /** A request of at most 1Gi is not rounded past it: the two branches meet. */
  lemma StaysBelowGi(a: Int64)
    requires 0 <= a <= LAST_ROUNDABLE
    ensures a <= GI <==> GetRoundedCapacity(a) <= GI
  {
    RoundedExactly(a);
    if a <= GI {
      var r := GetRoundedCapacity(a);
      assert r == r / MI * MI;
      MultiplesApart(r / MI, 1024, MI);
    }
  }

  lemma RoundedFixed(a: Int64)
    requires 0 <= a <= LAST_ROUNDABLE
    ensures GetRoundedCapacity(GetRoundedCapacity(a)) == GetRoundedCapacity(a)
  {
    var r := GetRoundedCapacity(a);
    RoundedExactly(a);
    StaysBelowGi(a);
    RoundedExactly(r);
    FixedMultiple(r, Unit(r));
  }

  lemma FixedMultiple(r: int, unit: int)
    requires r >= 0 && unit > 0 && (r % unit == 0 || r == 0)
    ensures (r + unit - 1) / unit * unit == r
  {
    RoundUp(r, unit);
    var s := (r + unit - 1) / unit;
    var q := r / unit;
    assert r == q * unit;
    MultiplesApart(s, q, unit);
    assert s * unit >= q * unit;
    MultiplesApart(q, s, unit);
  }

  lemma MultiplesOrdered(a: int, b: int, unit: int)
    requires 0 <= a <= b && unit > 0
    ensures (a + unit - 1) / unit * unit <= (b + unit - 1) / unit * unit
  {
    var x, y := (a + unit - 1) / unit, (b + unit - 1) / unit;
    RoundUp(a, unit);
    RoundUp(b, unit);
    MultiplesApart(x, y, unit);
    assert x <= y ==> x * unit <= y * unit;
  }

  /** A request for nothing gets nothing: there is no minimum of 1Mi, whatever the comment in the code says. */
  lemma NoMinimum()
    ensures GetRoundedCapacity(0) == 0
    ensures forall size: Int64 :: 0 < size <= LAST_ROUNDABLE ==> GetRoundedCapacity(size) >= MI
  {
    forall size: Int64 | 0 < size <= LAST_ROUNDABLE
      ensures GetRoundedCapacity(size) >= MI
    {
      RoundedExactly(size);
      if size <= GI {
        var r := GetRoundedCapacity(size);
        assert r == r / MI * MI && r > 0;
        assert r / MI >= 1;
      }
    }
  }

  /** Passing a capacity to the store as uint64 and reading it back as int64 loses nothing. */
  lemma ConversionsRoundTrip(i: Int64, u: UInt64)
    ensures ToInt64(ToUInt64(i)) == i && ToUInt64(ToInt64(u)) == u
    ensures 0 <= i ==> ToUInt64(i) == i
  {
  }
}
