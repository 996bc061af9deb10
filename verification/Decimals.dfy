/** Decimal values in the precision of a NUMERIC(5,2) column: two decimals, halves away from zero. */
module Decimals {

  function Numeric2(v: real): real {
    Hundredths(v) as real / 100.0
  }

  function Hundredths(v: real): int {
    if v >= 0.0 then (v * 100.0 + 0.5).Floor else -(-v * 100.0 + 0.5).Floor
  }

  predicate IsHundredth(x: real) {
    Numeric2(x) == x
  }

  predicate IsWholeHundredths(x: real, h: int) {
    x == h as real / 100.0
  }

  /** A value in a NUMERIC(5,2) column: whole hundredths at most half a hundredth from the value that
      was written, the further one from zero when two are equally near. */
  ghost predicate RoundsTo(v: real, stored: real) {
    && (exists h: int :: IsWholeHundredths(stored, h))
    && -0.005 <= v - stored <= 0.005
    && (v - stored == 0.005 ==> v < 0.0)
    && (v - stored == -0.005 ==> v > 0.0)
  }

  lemma Numeric2Rounds(v: real)
    ensures RoundsTo(v, Numeric2(v))
  {
    HundredthsAreNear(v);
    assert IsWholeHundredths(Numeric2(v), Hundredths(v));
    assert Numeric2(v) * 100.0 == Hundredths(v) as real;
  }

  lemma HundredthsAreNear(v: real)
    ensures -0.5 <= 100.0 * v - Hundredths(v) as real <= 0.5
    ensures 100.0 * v - Hundredths(v) as real == 0.5 ==> v < 0.0
    ensures 100.0 * v - Hundredths(v) as real == -0.5 ==> v > 0.0
  {
  }

  /** The rounding finds that value, and there is no other. */
  lemma Numeric2IsNearest(v: real, stored: real)
    ensures RoundsTo(v, stored) <==> stored == Numeric2(v)
  {
    Numeric2Rounds(v);
    if RoundsTo(v, stored) {
      var h: int :| IsWholeHundredths(stored, h);
      HundredthsAreNear(v);
      assert stored * 100.0 == h as real;
      assert h == Hundredths(v);
    }
  }

  /** A hundredth is a whole number of hundredths. */
  lemma HundredthsAreWhole(x: real)
    ensures IsHundredth(x) <==> exists h: int :: IsWholeHundredths(x, h)
  {
    if IsHundredth(x) {
      assert IsWholeHundredths(x, Hundredths(x));
    }
    if h: int :| IsWholeHundredths(x, h) {
      assert RoundsTo(x, x);
      Numeric2IsNearest(x, x);
    }
  }

  lemma {:induction false} Numeric2IsMonotone(a: real, b: real)
    requires a <= b
    ensures Numeric2(a) <= Numeric2(b)
  {
    if a >= 0.0 {
      FloorIsMonotone(a * 100.0 + 0.5, b * 100.0 + 0.5);
    } else if b < 0.0 {
      FloorIsMonotone(-b * 100.0 + 0.5, -a * 100.0 + 0.5);
    } else {
      FloorIsMonotone(0.5, -a * 100.0 + 0.5);
      FloorIsMonotone(0.5, b * 100.0 + 0.5);
    }
    HundredthsDivide(Hundredths(a), Hundredths(b));
  }

  lemma FloorIsMonotone(x: real, y: real)
    requires x <= y
    ensures x.Floor <= y.Floor
  {
  }

  lemma HundredthsDivide(m: int, n: int)
    requires m <= n
    ensures m as real / 100.0 <= n as real / 100.0
  {
  }

  /** A stored value lies below `m` hundredths exactly when the value lies below the midpoint
      before `m`, or on it where halves round down. */
  lemma {:induction false} StoredBelowExactly(v: real, m: int)
    ensures Hundredths(v) < m <==> 100.0 * v < m as real - 0.5 || (100.0 * v == m as real - 0.5 && m <= 0)
  {
    if v >= 0.0 {
      FloorBelow(v * 100.0 + 0.5, m);
    } else {
      FloorBelow(-v * 100.0 + 0.5, 1 - m);
    }
  }

  lemma FloorBelow(x: real, m: int)
    ensures x.Floor < m <==> x < m as real
  {
  }
}
