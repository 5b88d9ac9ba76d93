/** Rounding to doubles, for numbers whose size stays below 2 to the 53. */
module Doubles {

  function Pow2(k: nat): (p: nat)
    ensures p >= 1
  {
    if k == 0 then 1 else 2 * Pow2(k - 1)
  }

  /** 2 to the 53: up to here all integers are doubles. */
  const LIMIT := 9007199254740992

  function Abs(x: real): real { if x < 0.0 then -x else x }

  /** Scaling by a power of two. */
  function Scaled(x: real, k: nat): real { x * Pow2(k) as real }

  predicate IsDouble(x: real, m: int, k: nat) {
    -LIMIT <= m <= LIMIT && k <= 1074 && Scaled(x, k) == m as real
  }

  /** The doubles of size up to LIMIT: an integer of at most 53 bits over a power of two. */
  ghost predicate Double(x: real) {
    exists m: int, k: nat :: IsDouble(x, m, k)
  }

  ghost predicate NearestTo(x: real, d: real) {
    Double(d) && forall y :: Double(y) ==> Abs(d - x) <= Abs(y - x)
  }

  predicate InRange(x: real) { Abs(x) <= LIMIT as real }

  /** Rounding to nearest, whatever is done with ties. */
  ghost predicate Rounds(round: real -> real) {
    forall x :: InRange(x) ==> NearestTo(x, round(x))
  }

  // ----- powers of two -----

  lemma {:induction false} Pow2Grows(j: nat, k: nat)
    requires j <= k
    ensures Pow2(k) == Pow2(j) * Pow2(k - j)
    decreases k
  {
    if j < k {
      Pow2Grows(j, k - 1);
      assert Pow2(k - j) == 2 * Pow2(k - 1 - j);
    }
  }

  lemma PowersOfTwo()
    ensures Pow2(15) == 32768 && Pow2(16) == 65536 && Pow2(17) == 131072
    ensures Pow2(19) == 524288 && Pow2(20) == 1048576 && Pow2(21) == 2097152
    ensures Pow2(22) == 4194304 && Pow2(23) == 8388608
    ensures Pow2(24) == 16777216 && Pow2(26) == 67108864 && Pow2(27) == 134217728 && Pow2(28) == 268435456
    ensures Pow2(29) == 536870912
    ensures Pow2(53) == LIMIT
  {
    assert Pow2(5) == 32;
    assert Pow2(10) == 1024;
    Pow2Grows(5, 15);
    Pow2Grows(10, 20);
    Pow2Grows(5, 25);
    Pow2Grows(26, 53);
  }

  lemma Rescale(x: real, j: nat, k: nat)
    requires j <= k
    ensures Scaled(x, k) == Scaled(x, j) * Pow2(k - j) as real
  {
    hide Pow2;
    Pow2Grows(j, k);
    ScaledTwice(x, Pow2(j), Pow2(k - j));
  }

  lemma ScaledTwice(x: real, p: nat, q: nat)
    ensures x * (p * q) as real == (x * p as real) * q as real
  {
    assert (p * q) as real == p as real * q as real;
  }

  lemma ScaledAbs(x: real, k: nat)
    ensures Abs(Scaled(x, k)) == Scaled(Abs(x), k) >= 0.0
    ensures Scaled(-x, k) == -Scaled(x, k)
  {}

  lemma ScaledOrder(x: real, y: real, k: nat)
    ensures x <= y <==> Scaled(x, k) <= Scaled(y, k)
    ensures Scaled(x, k) - Scaled(y, k) == Scaled(x - y, k)
  {
    var p := Pow2(k) as real;
    assert p >= 1.0;
    assert x * p - y * p == (x - y) * p;
    if x < y {
      assert (y - x) * p > 0.0;
    }
    if y < x {
      assert (x - y) * p > 0.0;
    }
  }

  // ----- what rounding does -----

  lemma RoundsMonotonically(round: real -> real, x: real, y: real)
    requires Rounds(round) && InRange(x) && InRange(y) && x <= y
    ensures round(x) <= round(y)
  {
    assert NearestTo(x, round(x)) && NearestTo(y, round(y));
    assert Abs(round(x) - x) <= Abs(round(y) - x) && Abs(round(y) - y) <= Abs(round(x) - y);
  }

  lemma RoundsExactly(round: real -> real, x: real)
    requires Rounds(round) && InRange(x) && Double(x)
    ensures round(x) == x
  {
    assert NearestTo(x, round(x));
  }

  lemma IntegersAreDoubles(n: int)
    requires -LIMIT <= n <= LIMIT
    ensures Double(n as real) && InRange(n as real)
  {
    assert IsDouble(n as real, n, 0);
  }

  lemma Fraction(m: int, k: nat) returns (x: real)
    ensures Scaled(x, k) == m as real
  {
    x := m as real / Pow2(k) as real;
  }

  /** The nearest integer. */
  lemma NearestInt(s: real, n: int)
    ensures Abs((s + 0.5).Floor as real - s) <= 0.5
    ensures Abs((s + 0.5).Floor as real - s) <= Abs(n as real - s)
  {
    var m := (s + 0.5).Floor;
    if n < m {
      assert n + 1 <= m;
    } else if m < n {
      assert m + 1 <= n;
    }
  }

  /** The error is at most half a step of any grid that is fine enough for the number's size. */
  lemma RoundsWithin(round: real -> real, x: real, k: nat)
    requires Rounds(round) && InRange(x) && k <= 1074 && Scaled(Abs(x), k) <= LIMIT as real
    ensures Scaled(Abs(round(x) - x), k) <= 0.5
  {
    hide Pow2, Scaled;
    ScaledAbs(x, k);
    NearestInt(Scaled(x, k), 0);
    var m := (Scaled(x, k) + 0.5).Floor;
    var y := Fraction(m, k);
    assert IsDouble(y, m, k);
    assert NearestTo(x, round(x)) && Double(y);
    ScaledOrder(y, x, k);
    ScaledAbs(y - x, k);
    ScaledOrder(Abs(round(x) - x), Abs(y - x), k);
  }

  /** A double too big for the finer grids lies on the coarser one. */
  lemma OnGrid(y: real, k: nat) returns (m: int)
    requires Double(y) && Scaled(Abs(y), k + 1) > LIMIT as real
    ensures Scaled(y, k) == m as real
  {
    hide Pow2;
    var n: int, j: nat :| IsDouble(y, n, j);
    ScaledAbs(y, j);
    if j > k {
      Rescale(Abs(y), k + 1, j);
      ScaledAbs(y, k + 1);
      Stretch(Scaled(Abs(y), k + 1), Pow2(j - (k + 1)));
    }
    Rescale(y, j, k);
    m := n * Pow2(k - j);
  }

  lemma Stretch(x: real, p: nat)
    requires x >= 0.0 && p >= 1
    ensures x * p as real >= x
  {
    assert x * (p as real - 1.0) >= 0.0;
  }

  // ----- there is such a rounding -----

  /** The finest grid, up to k, on which a number of this size is a double. */
  function Finest(x: real, k: nat): (j: nat)
    ensures j <= k
  {
    if k == 0 || Scaled(Abs(x), k) <= LIMIT as real then k else Finest(x, k - 1)
  }

  lemma {:induction false} FinestFits(x: real, k: nat)
    requires InRange(x)
    ensures Scaled(Abs(x), Finest(x, k)) <= LIMIT as real
    ensures Finest(x, k) < k ==> Scaled(Abs(x), Finest(x, k) + 1) > LIMIT as real
  {
    hide Scaled;
    if k == 0 {
      Unscaled(Abs(x));
    } else if Scaled(Abs(x), k) > LIMIT as real {
      FinestFits(x, k - 1);
    }
  }

  lemma Unscaled(x: real)
    ensures Scaled(x, 0) == x
  {}

  /** Rounding to the nearest step of the finest grid, ties upwards. */
  function RoundToGrid(x: real): real {
    (Scaled(x, Finest(x, 1074)) + 0.5).Floor as real / Pow2(Finest(x, 1074)) as real
  }

  lemma GridIsNearest(x: real, y: real)
    requires InRange(x) && Double(y)
    ensures Abs(RoundToGrid(x) - x) <= Abs(y - x)
  {
    hide Pow2, Finest, RoundToGrid, Scaled;
    var k := Finest(x, 1074);
    FinestFits(x, 1074);
    var m, d := (Scaled(x, k) + 0.5).Floor, RoundToGrid(x);
    GridPoint(x);
    ScaledOrder(d, x, k);
    ScaledAbs(d - x, k);
    ScaledOrder(y, x, k);
    ScaledAbs(y - x, k);
    var n: int, j: nat :| IsDouble(y, n, j);
    if j <= k {
      Rescale(y, j, k);
      NearestInt(Scaled(x, k), n * Pow2(k - j));
    } else {
      SmallerIsFurther(x, y, n, j, k);
      NearestInt(Scaled(x, k), if x < 0.0 then -(LIMIT / 2) else LIMIT / 2);
    }
    assert Scaled(Abs(d - x), k) <= Scaled(Abs(y - x), k);
    ScaledOrder(Abs(d - x), Abs(y - x), k);
  }

  lemma GridPoint(x: real)
    ensures Scaled(RoundToGrid(x), Finest(x, 1074)) == (Scaled(x, Finest(x, 1074)) + 0.5).Floor as real
  {}

  /** A double of a finer grid is smaller than the number, and no nearer than half the limit is. */
  lemma SmallerIsFurther(x: real, y: real, n: int, j: nat, k: nat)
    requires IsDouble(y, n, j) && k < j && Scaled(Abs(x), k + 1) > LIMIT as real
    ensures var half := if x < 0.0 then -(LIMIT / 2) else LIMIT / 2;
      Abs(half as real - Scaled(x, k)) <= Abs(Scaled(y, k) - Scaled(x, k))
  {
    hide Pow2;
    Rescale(y, k + 1, j);
    ScaledAbs(y, k + 1);
    ScaledAbs(y, j);
    Rescale(Abs(y), k + 1, j);
    Stretch(Scaled(Abs(y), k + 1), Pow2(j - (k + 1)));
    Doubling(x, k);
    Doubling(y, k);
    Doubling(Abs(x), k);
    ScaledAbs(x, k);
    ScaledAbs(y, k);
  }

  lemma Doubling(x: real, k: nat)
    ensures Scaled(x, k + 1) == 2.0 * Scaled(x, k)
  {
    assert Pow2(k + 1) as real == 2.0 * Pow2(k) as real;
    var p := Pow2(k) as real;
    assert x * (2.0 * p) == 2.0 * (x * p);
  }

  lemma RoundingExists()
    ensures Rounds(RoundToGrid)
  {
    forall x | InRange(x) ensures NearestTo(x, RoundToGrid(x)) {
      var k, m := Finest(x, 1074), (Scaled(x, Finest(x, 1074)) + 0.5).Floor;
      FinestFits(x, 1074);
      ScaledAbs(x, k);
      GridPoint(x);
      assert IsDouble(RoundToGrid(x), m, k);
      forall y | Double(y) ensures Abs(RoundToGrid(x) - x) <= Abs(y - x) {
        GridIsNearest(x, y);
      }
    }
  }
}
