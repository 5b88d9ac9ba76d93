/** Timestamps read as doubles: which of them keep their order, and what that does to the age window of a
    permission check. `round` is any rounding of reals to nearest doubles. */
module RoundedSeconds {
  import opened Text
  import opened Doubles
  import opened Timestamp
  import opened Approval
  import Payload

  function Pow10(d: nat): (p: nat)
    ensures p >= 1
  {
    if d == 0 then 1 else 10 * Pow10(d - 1)
  }

  predicate IsInteger(x: real) { x == x.Floor as real }

  /** The fraction counted in units of its last digit. */
  function Units(f: real, digits: nat): real { f * Pow10(digits) as real }

  /** The fraction can be written with so many digits. */
  predicate HasDigits(t: Stamp, digits: nat) {
    IsInteger(Units(t.fraction, digits))
  }

  /** The last year in which timestamps with so many digits are told apart. */
  function LastYear(digits: nat): int {
    if digits <= 4 then 9999
    else if digits == 5 then 4146
    else if digits == 6 then 2241
    else if digits == 7 then 1986
    else if digits == 8 then 1971
    else 1969
  }

  // ----- reading is monotone -----

  lemma ReadingInRange(t: Stamp)
    requires Accepted(t)
    ensures InRange(t.fraction) && -32949 <= Whole(t) < 253402300800
  {
    hide Whole;
    WholeBelow(t, 9999);
  }

  lemma FractionRead(round: real -> real, f: Fraction)
    requires Rounds(round)
    ensures 0.0 <= round(f) <= 1.0
    ensures f == 0.0 ==> round(f) == 0.0
  {
    IntegersAreDoubles(0);
    IntegersAreDoubles(1);
    RoundsExactly(round, 0.0);
    RoundsExactly(round, 1.0);
    RoundsMonotonically(round, 0.0, f);
    RoundsMonotonically(round, f, 1.0);
  }

  lemma IntegerRead(round: real -> real, n: int)
    requires Rounds(round) && -LIMIT <= n <= LIMIT
    ensures round(n as real) == n as real
  {
    IntegersAreDoubles(n);
    RoundsExactly(round, n as real);
  }

  lemma EarlierWhole(a: Stamp, b: Stamp)
    requires Instant(a) <= Instant(b)
    ensures Whole(a) < Whole(b) || (Whole(a) == Whole(b) && a.fraction <= b.fraction)
  {
    hide Whole;
    assert Whole(a) > Whole(b) ==> Whole(a) >= Whole(b) + 1;
  }

  /** Reading never reverses two instants. */
  lemma SecondsAreMonotone(round: real -> real, a: Stamp, b: Stamp)
    requires Rounds(round) && Accepted(a) && Accepted(b) && Instant(a) <= Instant(b)
    ensures Seconds(round, a) <= Seconds(round, b)
  {
    hide Whole, Accepted, Rounds;
    ReadingInRange(a);
    ReadingInRange(b);
    FractionRead(round, a.fraction);
    FractionRead(round, b.fraction);
    EarlierWhole(a, b);
    if Whole(a) == Whole(b) {
      RoundsMonotonically(round, a.fraction, b.fraction);
    } else {
      assert Whole(a) as real + 1.0 <= Whole(b) as real;
    }
    RoundsMonotonically(round, Whole(a) as real + round(a.fraction), Whole(b) as real + round(b.fraction));
  }

  /** From 1970 on an earlier timestamp never has more seconds, whatever the fractions. */
  lemma SecondsNeverReverse(round: real -> real, a: Stamp, b: Stamp)
    requires Rounds(round) && Valid(a) && Valid(b) && a.year >= 1970 && Before(a, b)
    ensures Seconds(round, a) <= Seconds(round, b)
  {
    BeforeCounts(a, b);
    SecondsAreMonotone(round, a, b);
  }

  lemma WholeSecondsAreExact(round: real -> real, t: Stamp)
    requires Rounds(round) && Accepted(t) && t.fraction == 0.0
    ensures Seconds(round, t) == Whole(t) as real == Instant(t)
  {
    hide Whole, Accepted;
    ReadingInRange(t);
    FractionRead(round, t.fraction);
    IntegerRead(round, Whole(t));
  }

  // ----- the error -----

  /** Half a step of the grid of two to the minus k. */
  function HalfStep(k: nat): real { 0.5 / Pow2(k) as real }

  lemma ErrorWithin(round: real -> real, x: real, k: nat)
    requires Rounds(round) && InRange(x) && k <= 1074 && Scaled(Abs(x), k) <= LIMIT as real
    ensures Abs(round(x) - x) <= HalfStep(k)
  {
    RoundsWithin(round, x, k);
    hide Pow2, Abs;
    Divided(Abs(round(x) - x), Pow2(k) as real);
  }

  lemma Divided(e: real, p: real)
    requires p >= 1.0 && e * p <= 0.5
    ensures e <= 0.5 / p
  {
    var half := 0.5 / p;
    assert half * p == 0.5;
    assert e > half ==> e * p > half * p;
  }

  /** The two roundings together: the sum's step depends on the size of the number. */
  lemma SecondsNear(round: real -> real, t: Stamp, k: nat)
    requires Rounds(round) && Accepted(t) && Whole(t) >= 0 && k <= 53 && (Whole(t) + 1) * Pow2(k) <= LIMIT
    ensures Abs(Seconds(round, t) - Instant(t)) <= HalfStep(k) + HalfStep(53)
  {
    hide Whole, Accepted, Rounds, HalfStep, Pow2;
    ReadingInRange(t);
    FractionRead(round, t.fraction);
    PowersOfTwo();
    ErrorWithin(round, t.fraction, 53);
    var sum := Whole(t) as real + round(t.fraction);
    ScaledOrder(sum, (Whole(t) + 1) as real, k);
    ErrorWithin(round, sum, k);
  }

  // ----- where the order is kept -----

  /** A valid timestamp that is told apart from all others with as many digits. */
  predicate Kept(digits: nat, t: Stamp) {
    Valid(t) && HasDigits(t, digits) && digits <= 8 && t.year <= LastYear(digits)
  }

  /** The grid that all sums up to the last year fit. */
  function GridOf(digits: nat): nat {
    if digits <= 4 then 15
    else if digits == 5 then 17
    else if digits == 6 then 20
    else if digits == 7 then 24
    else 27
  }

  lemma KeptFits(digits: nat, t: Stamp)
    requires Kept(digits, t)
    ensures Accepted(t) && Whole(t) >= 0
    ensures GridOf(digits) <= 53 && (Whole(t) + 1) * Pow2(GridOf(digits)) <= LIMIT
  {
    hide Whole, Accepted, HasDigits, Pow2;
    WholeBelow(t, LastYear(digits));
    PowersOfTwo();
    assert DaysThrough(9999) == 2932897 && DaysThrough(4146) == 795133 && DaysThrough(2241) == 99346;
    assert DaysThrough(1986) == 6209 && DaysThrough(1971) == 730;
  }

  lemma PowersOfTen()
    ensures Pow10(0) == 1 && Pow10(1) == 10 && Pow10(2) == 100 && Pow10(3) == 1000 && Pow10(4) == 10000
    ensures Pow10(5) == 100000 && Pow10(6) == 1000000 && Pow10(7) == 10000000 && Pow10(8) == 100000000
    ensures Pow10(9) == 1000000000
  {}

  /** Two errors are less than one unit of the last digit. */
  lemma ErrorsFit(digits: nat)
    requires digits <= 8
    ensures 2.0 * (HalfStep(GridOf(digits)) + HalfStep(53)) * Pow10(digits) as real < 1.0
  {
    hide Pow2, Pow10;
    PowersOfTwo();
    PowersOfTen();
    assert Pow10(digits) <= 10000 || digits > 4;
  }

  lemma UnitApart(digits: nat, a: Stamp, b: Stamp)
    requires HasDigits(a, digits) && HasDigits(b, digits) && Instant(a) < Instant(b)
    ensures (Instant(b) - Instant(a)) * Pow10(digits) as real >= 1.0
  {
    hide Whole, Pow10;
    assert Instant(b) - Instant(a) == (Whole(b) - Whole(a)) as real + b.fraction - a.fraction;
    UnitStep(Instant(b) - Instant(a), Whole(b) - Whole(a), a.fraction, b.fraction, Pow10(digits),
             Units(a.fraction, digits).Floor, Units(b.fraction, digits).Floor);
  }

  lemma UnitStep(x: real, w: int, f: real, g: real, p: nat, m: int, n: int)
    requires f * p as real == m as real && g * p as real == n as real
    requires x == w as real + g - f > 0.0 && p >= 1
    ensures x * p as real >= 1.0
  {
    assert w as real * p as real == (w * p) as real;
    assert x * p as real == (w * p + n - m) as real;
    Stretch(x, p);
  }

  lemma EarlierKept(round: real -> real, digits: nat, a: Stamp, b: Stamp)
    requires Rounds(round) && Kept(digits, a) && Kept(digits, b) && Instant(a) < Instant(b)
    ensures Seconds(round, a) < Seconds(round, b)
  {
    hide Whole, Accepted, Rounds, HalfStep, Pow2, Pow10, Seconds, Instant, HasDigits, GridOf;
    KeptFits(digits, a);
    KeptFits(digits, b);
    SecondsNear(round, a, GridOf(digits));
    SecondsNear(round, b, GridOf(digits));
    ErrorsFit(digits);
    UnitApart(digits, a, b);
    var e, d := 2.0 * (HalfStep(GridOf(digits)) + HalfStep(53)), Instant(b) - Instant(a);
    if d <= e {
      assert d * Pow10(digits) as real <= e * Pow10(digits) as real;
    }
  }

  /** Up to the last year for their digits, seconds compare as the instants do. */
  lemma SecondsCompareInstants(round: real -> real, digits: nat, a: Stamp, b: Stamp)
    requires Rounds(round) && Kept(digits, a) && Kept(digits, b)
    ensures Seconds(round, a) < Seconds(round, b) <==> Instant(a) < Instant(b)
    ensures Seconds(round, a) == Seconds(round, b) <==> Instant(a) == Instant(b)
  {
    hide Seconds, Instant, Kept, Rounds;
    if Instant(a) < Instant(b) {
      EarlierKept(round, digits, a, b);
    } else if Instant(b) < Instant(a) {
      EarlierKept(round, digits, b, a);
    } else {
      SameInstant(round, a, b);
    }
  }

  lemma SameInstant(round: real -> real, a: Stamp, b: Stamp)
    requires Instant(a) == Instant(b)
    ensures Seconds(round, a) == Seconds(round, b)
  {
    hide Whole;
    EarlierWhole(a, b);
    EarlierWhole(b, a);
  }

  /** From 1970 to that year seconds order timestamps exactly as their fields do, and are injective. */
  lemma SecondsOrderStamps(round: real -> real, digits: nat, a: Stamp, b: Stamp)
    requires Rounds(round) && Kept(digits, a) && Kept(digits, b) && a.year >= 1970 && b.year >= 1970
    ensures Seconds(round, a) < Seconds(round, b) <==> Before(a, b)
    ensures Seconds(round, a) == Seconds(round, b) <==> a == b
  {
    hide Valid, Seconds, Instant, Before, Rounds, HasDigits;
    InstantsOrderStamps(a, b);
    SecondsCompareInstants(round, digits, a, b);
  }

  /** The exact pairs that are ordered, whatever their years: an earlier timestamp has fewer seconds unless
      its year is before 1970 and the other one either is no later in its own year, with that year not after
      1970, or is the first day of 1971 while the earlier one is the last day of a leap year. */
  lemma OrderedPairIff(round: real -> real, digits: nat, a: Stamp, b: Stamp)
    requires Rounds(round) && Kept(digits, a) && Kept(digits, b) && Before(a, b)
    ensures Seconds(round, a) < Seconds(round, b) <==> CountedInOrder(a, b)
  {
    hide Valid, Seconds, Instant, Before, Rounds, HasDigits, CountedInOrder;
    InstantPairIff(a, b);
    SecondsCompareInstants(round, digits, a, b);
  }

  lemma OrderFailsBefore1970(round: real -> real)
    requires Rounds(round)
    ensures var a, b := Stamp(1969, 12, 31, 0, 0, 0, 0.0), Stamp(1970, 1, 1, 0, 0, 0, 0.0);
      Valid(a) && Valid(b) && Before(a, b) && Seconds(round, a) > Seconds(round, b)
  {
    hide Rounds, Accepted, Whole, Seconds;
    AroundTheEpoch();
    WholeSecondsAreExact(round, Stamp(1969, 12, 31, 0, 0, 0, 0.0));
    WholeSecondsAreExact(round, Stamp(1970, 1, 1, 0, 0, 0, 0.0));
  }

  lemma AroundTheEpoch()
    ensures var a, b := Stamp(1969, 12, 31, 0, 0, 0, 0.0), Stamp(1970, 1, 1, 0, 0, 0, 0.0);
      Valid(a) && Valid(b) && Whole(a) == 364 * 86400 && Whole(b) == 0
  {
    hide Whole, Valid, LeapsUpTo;
    EndOf1969(Stamp(1969, 12, 31, 0, 0, 0, 0.0));
    NewYearCounts(1970, 0.0);
  }

  lemma EndOf1969(t: Stamp)
    requires t.year == 1969 && t.month == 12 && t.day == 31 && t.hour == t.minute == t.second == 0
    ensures Valid(t) && Whole(t) == 364 * 86400
  {
    hide IsLeap, YearLength, DaysBeforeYear, DaysBeforeMonth;
    CommonYear1969();
    MonthsFillYear(1969);
  }

  lemma CommonYear1969()
    ensures YearLength(1969) == 365 && DaysBeforeYear(1969) == 0
  {}

  /** The seconds order the timestamps without a fraction from a year on if and only if that year is 1970 or
      later. */
  lemma OrderedFromIff(round: real -> real, from: int)
    requires Rounds(round)
    ensures (forall a, b :: Valid(a) && Valid(b) && a.year >= from && b.year >= from
                            && a.fraction == b.fraction == 0.0 ==>
              (Seconds(round, a) < Seconds(round, b) <==> Before(a, b)))
       <==> from >= 1970
  {
    hide Valid, Seconds, Before, Rounds;
    if from >= 1970 {
      forall a, b | Valid(a) && Valid(b) && a.year >= from && b.year >= from && a.fraction == b.fraction == 0.0
        ensures Seconds(round, a) < Seconds(round, b) <==> Before(a, b)
      {
        assert HasDigits(a, 0) && HasDigits(b, 0);
        SecondsOrderStamps(round, 0, a, b);
      }
    } else {
      OrderFailsBefore1970(round);
      var a, b := Stamp(1969, 12, 31, 0, 0, 0, 0.0), Stamp(1970, 1, 1, 0, 0, 0, 0.0);
      assert Valid(a) && Valid(b) && a.year >= from && b.year >= from && !(Seconds(round, a) < Seconds(round, b));
    }
  }

  // ----- where timestamps collapse -----

  lemma ReadFromWhole(round: real -> real, t: Stamp)
    requires Rounds(round) && Accepted(t) && Whole(t) >= 0
    ensures var r := Seconds(round, t); Double(r) && Abs(r) == r >= Whole(t) as real
    ensures var sum := Whole(t) as real + round(t.fraction);
      InRange(sum) && Abs(sum) == sum <= (Whole(t) + 1) as real
  {
    hide Whole, Accepted;
    ReadingInRange(t);
    FractionRead(round, t.fraction);
    var sum := Whole(t) as real + round(t.fraction);
    assert NearestTo(sum, round(sum));
    IntegerRead(round, Whole(t));
    RoundsMonotonically(round, Whole(t) as real, sum);
  }

  /** A sum too big for the finer grids goes to the step of this one that its fraction is near to. */
  lemma GoesToStep(round: real -> real, t: Stamp, k: nat, j: nat)
    requires Rounds(round) && Accepted(t) && Whole(t) >= 0 && k <= 53
    requires Whole(t) * Pow2(k + 1) > LIMIT && (Whole(t) + 1) * Pow2(k) <= LIMIT
    requires Abs(Scaled(t.fraction, k) - j as real) + Scaled(HalfStep(53), k) < 0.5
    ensures Scaled(Seconds(round, t), k) == (Whole(t) * Pow2(k) + j) as real
  {
    hide Whole, Accepted, Rounds, HalfStep, Pow2;
    ReadingInRange(t);
    ReadFromWhole(round, t);
    var w, g, r := Whole(t) as real, round(t.fraction), Seconds(round, t);
    PowersOfTwo();
    ErrorWithin(round, t.fraction, 53);
    ScaledOrder(w, r, k + 1);
    var m := OnGrid(r, k);
    ScaledOrder(w + g, w + 1.0, k);
    RoundsWithin(round, w + g, k);
    NearStep(w, t.fraction, g, r, k, Whole(t) * Pow2(k), j, m);
  }

  lemma NearStep(w: real, f: real, g: real, r: real, k: nat, wp: int, j: int, m: int)
    requires Scaled(w, k) == wp as real && Scaled(r, k) == m as real
    requires Abs(Scaled(f, k) - j as real) + Scaled(HalfStep(53), k) < 0.5
    requires Abs(g - f) <= HalfStep(53) && Scaled(Abs(r - (w + g)), k) <= 0.5
    ensures m == wp + j
  {
    hide HalfStep, Pow2, Scaled;
    ScaledAbs(r - (w + g), k);
    ScaledOrder(r, w + g, k);
    ScaledOrder(w + g, w, k);
    ScaledOrder(g, f, k);
    ScaledAbs(g - f, k);
    ScaledOrder(Abs(g - f), HalfStep(53), k);
    assert Abs(m as real - (wp + j) as real) < 1.0;
  }

  lemma SameStep(round: real -> real, a: Stamp, b: Stamp, k: nat, j: nat)
    requires Rounds(round) && Accepted(a) && Accepted(b) && Whole(a) == Whole(b) >= 0 && k <= 53
    requires Whole(a) * Pow2(k + 1) > LIMIT && (Whole(a) + 1) * Pow2(k) <= LIMIT
    requires Abs(Scaled(a.fraction, k) - j as real) + Scaled(HalfStep(53), k) < 0.5
    requires Abs(Scaled(b.fraction, k) - j as real) + Scaled(HalfStep(53), k) < 0.5
    ensures Seconds(round, a) == Seconds(round, b)
  {
    hide Whole, Accepted, Rounds, HalfStep, Pow2, Scaled, Seconds;
    GoesToStep(round, a, k, j);
    GoesToStep(round, b, k, j);
    ScaledOrder(Seconds(round, a), Seconds(round, b), k);
    ScaledOrder(Seconds(round, b), Seconds(round, a), k);
  }

  /** A fraction of few digits has more digits too. */
  lemma {:induction false} FewDigits(n: int, few: nat, digits: nat, f: real)
    requires few <= digits && Units(f, few) == n as real
    ensures IsInteger(Units(f, digits))
  {
    if few < digits {
      FewDigits(n, few, digits - 1, f);
      var p := Pow10(digits - 1);
      assert f * (10 * p) as real == 10.0 * (f * p as real);
      assert Units(f, digits) == (10 * Units(f, digits - 1).Floor) as real;
    }
  }

  function LastDay(year: Year, f: Fraction): Stamp {
    Stamp(year, 12, 31, 0, 0, 0, f)
  }

  lemma LastDayCounts(year: Year, f: Fraction)
    requires year >= 1970
    ensures var t := LastDay(year, f); Valid(t) && Whole(t) == (DaysThrough(year) - 1) * 86400
  {
    hide DaysBeforeMonth, LeapsUpTo;
    MonthsFillYear(year);
    YearLoopIsGregorian(year + 1);
  }

  /** The grid of the sums in the next year, its step that two fractions go to, and the first of them, in
      units of the last digit; from the tenth digit on it is still the ninth that counts. */
  function StepAfter(digits: nat): (step: (nat, nat, nat))
    requires digits >= 5
  {
    if digits == 5 then (16, 1, 1)
    else if digits == 6 then (19, 1, 1)
    else if digits == 7 then (23, 3, 3)
    else if digits == 8 then (26, 1, 1)
    else (28, 0, 0)
  }

  function AtMost9(digits: nat): nat { if digits < 9 then digits else 9 }

  lemma BothNearStep(digits: nat, n: nat)
    requires digits >= 5
    requires StepAfter(digits).2 <= n <= StepAfter(digits).2 + 1
    ensures var (k, j, _) := StepAfter(digits);
      var f := n as real / Pow10(AtMost9(digits)) as real;
      0.0 <= f < 1.0 && IsInteger(Units(f, digits))
      && Abs(Scaled(f, k) - j as real) + Scaled(HalfStep(53), k) < 0.5
  {
    hide Pow2, Pow10;
    PowersOfTwo();
    PowersOfTen();
    var few := AtMost9(digits);
    var f := n as real / Pow10(few) as real;
    assert Units(f, few) == n as real;
    FewDigits(n, few, digits, f);
  }

  /** In the year after the last one, two fractions that differ by one unit collapse. */
  lemma CollapseNextYear(round: real -> real, digits: nat) returns (a: Stamp, b: Stamp)
    requires Rounds(round) && digits >= 5
    ensures Valid(a) && Valid(b) && HasDigits(a, digits) && HasDigits(b, digits)
    ensures a.year == b.year == LastYear(digits) + 1 && Before(a, b) && Seconds(round, a) == Seconds(round, b)
  {
    hide Pow2, Pow10, Valid, Whole, Rounds, Scaled, HalfStep, Seconds;
    var (k, j, n) := StepAfter(digits);
    var year: Year := LastYear(digits) + 1;
    var unit := Pow10(AtMost9(digits)) as real;
    BothNearStep(digits, n);
    BothNearStep(digits, n + 1);
    a, b := LastDay(year, n as real / unit), LastDay(year, (n + 1) as real / unit);
    LastDayCounts(year, a.fraction);
    LastDayCounts(year, b.fraction);
    LastDayOnGrid(digits);
    SameStep(round, a, b, k, j);
    assert n as real / unit < (n + 1) as real / unit;
  }

  lemma LastDayOnGrid(digits: nat)
    requires digits >= 5
    ensures var k, w := StepAfter(digits).0, (DaysThrough(LastYear(digits) + 1) - 1) * 86400;
      w >= 0 && w * Pow2(k + 1) > LIMIT && (w + 1) * Pow2(k) <= LIMIT
  {
    hide Pow2;
    PowersOfTwo();
    assert DaysThrough(4147) == 795498 && DaysThrough(2242) == 99711;
    assert DaysThrough(1987) == 6574 && DaysThrough(1972) == 1096 && DaysThrough(1970) == 365;
  }

  /** The timestamps with so many digits are ordered by their seconds from 1970 to the end of a year if and
      only if that year is no later than the last one for so many digits. */
  lemma OrderedUntilIff(round: real -> real, digits: nat, until: Year)
    requires Rounds(round)
    ensures (forall a, b :: Valid(a) && Valid(b) && HasDigits(a, digits) && HasDigits(b, digits)
                            && 1970 <= a.year <= until && 1970 <= b.year <= until ==>
              (Seconds(round, a) < Seconds(round, b) <==> Before(a, b)))
       <==> until <= LastYear(digits)
  {
    hide Valid, Seconds, Before, Rounds, HasDigits;
    if until <= LastYear(digits) {
      forall a, b | Valid(a) && Valid(b) && HasDigits(a, digits) && HasDigits(b, digits)
                    && 1970 <= a.year <= until && 1970 <= b.year <= until
        ensures Seconds(round, a) < Seconds(round, b) <==> Before(a, b)
      {
        SecondsOrderStamps(round, digits, a, b);
      }
    } else {
      var a, b := CollapseNextYear(round, digits);
      assert !(Seconds(round, a) < Seconds(round, b)) && Before(a, b);
    }
  }

  function NewYear(year: Year, f: Fraction): Stamp {
    Stamp(year, 1, 1, 0, 0, 0, f)
  }

  lemma NewYearCounts(year: Year, f: Fraction)
    requires year >= 1970
    ensures var t := NewYear(year, f); Valid(t) && Whole(t) == DaysThrough(year - 1) * 86400
  {
    hide IsLeap, LeapsUpTo;
    YearLoopIsGregorian(year);
  }

  /** A nanosecond at the beginning of 2020 is lost. */
  lemma NanosecondIsLost(round: real -> real)
    requires Rounds(round)
    ensures var a, b := NewYear(2020, 0.0), NewYear(2020, 0.000000001);
      Before(a, b) && Seconds(round, a) == Seconds(round, b) == 1577836800.0
  {
    hide Pow2, Rounds, Whole, Valid;
    var a, b := NewYear(2020, 0.0), NewYear(2020, 0.000000001);
    NewYearCounts(2020, a.fraction);
    NewYearCounts(2020, b.fraction);
    PowersOfTwo();
    SameStep(round, a, b, 22, 0);
    WholeSecondsAreExact(round, a);
  }

  function LastSecond(year: Year, f: Fraction): Stamp {
    Stamp(year, 12, 31, 23, 59, 59, f)
  }

  /** A nanosecond before 2020 is the first second of 2020. */
  lemma NanosecondBefore2020(round: real -> real)
    requires Rounds(round)
    ensures Seconds(round, LastSecond(2019, 0.999999999)) == 1577836800.0
  {
    hide Pow2, Rounds, Whole, Accepted;
    var t := LastSecond(2019, 0.999999999);
    LastSecondCounts(2019, t.fraction);
    PowersOfTwo();
    GoesToStep(round, t, 22, 4194304);
  }

  lemma LastSecondCounts(year: Year, f: Fraction)
    requires year >= 1970
    ensures var t := LastSecond(year, f); Valid(t) && Whole(t) == DaysThrough(year) * 86400 - 1
  {
    hide DaysBeforeMonth, DaysThrough, IsLeap;
    LastDayCounts(year, f);
  }

  // ----- the age window of a permission check -----

  /** The age of a check at approval time; None when one of the timestamps is refused. */
  function Age(round: real -> real, later: Stamp, earlier: Stamp): Option<real> {
    if Accepted(later) && Accepted(earlier) then Some(round(Seconds(round, later) - Seconds(round, earlier)))
    else None
  }

  /** A passed proof and a passing gate for the same target: everything but the age is in order. */
  predicate OnlyAgeIsOpen(h: Payload.Hashes, result: ProofResult, gate: PermissionGate) {
    result.Approved? && Permits(h, gate, result.proof.target)
  }

  /** The decision is built for this approval time and this check time. */
  predicate Builds(round: real -> real, h: Payload.Hashes, result: ProofResult, gate: PermissionGate,
                   approvedAt: Stamp, checkedAt: Stamp, maxAge: int, maxSkew: int) {
    BuildDecision(h, result, gate, Age(round, approvedAt, checkedAt), maxAge as real, maxSkew as real).Some?
  }

  /** The check is in the window that ends the allowed skew after the approval and begins the maximal age
      before it. */
  predicate InWindow(approvedAt: Stamp, checkedAt: Stamp, maxAge: int, maxSkew: int) {
    -maxSkew as real <= Instant(approvedAt) - Instant(checkedAt) <= maxAge as real
  }

  lemma BuildsIff(round: real -> real, h: Payload.Hashes, result: ProofResult, gate: PermissionGate,
                  approvedAt: Stamp, checkedAt: Stamp, maxAge: int, maxSkew: int)
    requires OnlyAgeIsOpen(h, result, gate)
    ensures Builds(round, h, result, gate, approvedAt, checkedAt, maxAge, maxSkew) <==>
              Accepted(approvedAt) && Accepted(checkedAt)
              && -maxSkew as real <= round(Seconds(round, approvedAt) - Seconds(round, checkedAt)) <= maxAge as real
  {
    hide Accepted, Seconds, BuildDecision, Permits;
    DecisionIff(h, result, gate, Age(round, approvedAt, checkedAt), maxAge as real, maxSkew as real);
  }

  lemma WholeAgeIsExact(round: real -> real, approvedAt: Stamp, checkedAt: Stamp)
    requires Rounds(round) && Accepted(approvedAt) && Accepted(checkedAt)
    requires approvedAt.fraction == checkedAt.fraction == 0.0
    ensures round(Seconds(round, approvedAt) - Seconds(round, checkedAt))
         == (Whole(approvedAt) - Whole(checkedAt)) as real
  {
    hide Rounds, Accepted, Whole, Seconds;
    WholeSecondsAreExact(round, approvedAt);
    WholeSecondsAreExact(round, checkedAt);
    ReadingInRange(approvedAt);
    ReadingInRange(checkedAt);
    IntegerRead(round, Whole(approvedAt) - Whole(checkedAt));
  }

  /** Without fractions, an approval whose timestamp is accepted is built exactly for a check in the window:
      field by field, no earlier than the oldest timestamp allowed and no later than the newest. */
  lemma ApprovalWindowIsExact(round: real -> real, h: Payload.Hashes, result: ProofResult, gate: PermissionGate,
                              approvedAt: Stamp, checkedAt: Stamp, maxAge: int, maxSkew: int, oldest: Stamp,
                              newest: Stamp)
    requires Rounds(round) && OnlyAgeIsOpen(h, result, gate)
    requires approvedAt.fraction == checkedAt.fraction == oldest.fraction == newest.fraction == 0.0
    requires Valid(checkedAt) && Valid(oldest) && Valid(newest)
    requires oldest.year >= 1970 && newest.year >= 1970 && checkedAt.year >= 1970
    requires Whole(oldest) == Whole(approvedAt) - maxAge && Whole(newest) == Whole(approvedAt) + maxSkew
    ensures Builds(round, h, result, gate, approvedAt, checkedAt, maxAge, maxSkew) <==>
              Accepted(approvedAt) && !Before(checkedAt, oldest) && !Before(newest, checkedAt)
  {
    hide Rounds, Accepted, Whole, Seconds, Before, OnlyAgeIsOpen, Builds;
    BuildsIff(round, h, result, gate, approvedAt, checkedAt, maxAge, maxSkew);
    if Accepted(approvedAt) {
      WholeAgeIsExact(round, approvedAt, checkedAt);
      InstantsOrderStamps(checkedAt, oldest);
      InstantsOrderStamps(newest, checkedAt);
    }
  }

  /** The program's test is the exact window for all timestamps with so many digits, and all limits, if and
      only if there are no digits at all. */
  lemma WindowIsExactIff(round: real -> real, h: Payload.Hashes, result: ProofResult, gate: PermissionGate, digits: nat)
    requires Rounds(round) && OnlyAgeIsOpen(h, result, gate)
    ensures (forall a, c, maxAge, maxSkew :: Valid(a) && Valid(c) && HasDigits(a, digits) && HasDigits(c, digits) ==>
              (Builds(round, h, result, gate, a, c, maxAge, maxSkew) <==> InWindow(a, c, maxAge, maxSkew)))
       <==> digits == 0
  {
    hide Rounds, Whole, Seconds, OnlyAgeIsOpen, Builds, HasDigits, Valid;
    if digits == 0 {
      forall a, c, maxAge, maxSkew | Valid(a) && Valid(c) && HasDigits(a, digits) && HasDigits(c, digits)
        ensures Builds(round, h, result, gate, a, c, maxAge, maxSkew) <==> InWindow(a, c, maxAge, maxSkew)
      {
        NoDigits(a);
        NoDigits(c);
        BuildsIff(round, h, result, gate, a, c, maxAge, maxSkew);
        WholeAgeIsExact(round, a, c);
      }
    } else {
      ExactAgeIsRefused(round, h, result, gate);
      NineTenths(digits, Approved2004());
      NineTenths(digits, Checked2004());
    }
  }

  lemma NoDigits(t: Stamp)
    requires Valid(t) && HasDigits(t, 0)
    ensures Accepted(t) && t.fraction == 0.0
  {
    assert Units(t.fraction, 0) == t.fraction;
  }

  lemma NineTenths(digits: nat, t: Stamp)
    requires digits >= 1 && t.fraction == 0.9
    ensures HasDigits(t, digits)
  {
    assert Pow10(1) == 10;
    FewDigits(9, 1, digits, t.fraction);
  }

  // Five minutes apart, before and after the step of doubles doubles, two to the 30 seconds after 1970.
  function Checked2004(): Stamp { Stamp(2004, 1, 10, 13, 32, 5, 0.9) }
  function Approved2004(): Stamp { Stamp(2004, 1, 10, 13, 37, 5, 0.9) }

  lemma Count2004()
    ensures Valid(Checked2004()) && Whole(Checked2004()) == 1073741525
    ensures Valid(Approved2004()) && Whole(Approved2004()) == 1073741825
  {
    hide LeapsUpTo;
    YearLoopIsGregorian(2004);
    LeapsIn2003();
  }

  lemma LeapsIn2003()
    ensures LeapsUpTo(2003) - LeapsUpTo(1969) == 8
  {}

  lemma Steps2004(round: real -> real)
    requires Rounds(round)
    ensures Seconds(round, Approved2004()) - Seconds(round, Checked2004()) == 300.0 + 1.0 / 8388608.0
  {
    hide Rounds, Accepted, Whole, Seconds, Pow2;
    PowersOfTwo();
    Count2004();
    GoesToStep(round, Approved2004(), 22, 3774874);
    GoesToStep(round, Checked2004(), 23, 7549747);
  }

  /** A check exactly as old as allowed is refused. */
  lemma ExactAgeIsRefused(round: real -> real, h: Payload.Hashes, result: ProofResult, gate: PermissionGate)
    requires Rounds(round) && OnlyAgeIsOpen(h, result, gate)
    ensures var a, c := Approved2004(), Checked2004();
      Valid(a) && Valid(c) && InWindow(a, c, 300, 60) && !Builds(round, h, result, gate, a, c, 300, 60)
  {
    hide Rounds, Accepted, Whole, Seconds, OnlyAgeIsOpen, Builds, Pow2;
    Count2004();
    Steps2004(round);
    BuildsIff(round, h, result, gate, Approved2004(), Checked2004(), 300, 60);
    var age := 300.0 + 1.0 / 8388608.0;
    PowersOfTwo();
    assert IsDouble(age, 300 * 8388608 + 1, 23);
    RoundsExactly(round, age);
  }

  function FiveMinutesInto(year: Year): Stamp { Stamp(year, 1, 1, 0, 5, 0, 0.0) }

  lemma FiveMinutesCount(year: Year)
    requires year >= 1970
    ensures var t := FiveMinutesInto(year);
      Valid(t) && t.fraction == 0.0 && Whole(t) == DaysThrough(year - 1) * 86400 + 300
  {
    hide DaysThrough, IsLeap;
    NewYearCounts(year, 0.0);
  }

  /** A check a nanosecond too old is accepted. */
  lemma NanosecondTooOldIsAccepted(round: real -> real, h: Payload.Hashes, result: ProofResult, gate: PermissionGate)
    requires Rounds(round) && OnlyAgeIsOpen(h, result, gate)
    ensures var a, c := FiveMinutesInto(2020), LastSecond(2019, 0.999999999);
      Valid(a) && Valid(c) && !InWindow(a, c, 300, 60) && Builds(round, h, result, gate, a, c, 300, 60)
  {
    hide Rounds, Accepted, Whole, Seconds, OnlyAgeIsOpen, Builds, FiveMinutesInto;
    var a, c := FiveMinutesInto(2020), LastSecond(2019, 0.999999999);
    FiveMinutesCount(2020);
    LastSecondCounts(2019, 0.999999999);
    NanosecondBefore2020(round);
    WholeSecondsAreExact(round, a);
    IntegerRead(round, 300);
    BuildsIff(round, h, result, gate, a, c, 300, 60);
  }

  /** Up to 2105 the test is the exact window to within a microsecond, whatever the fractions. */
  lemma WindowWithinMicrosecond(round: real -> real, h: Payload.Hashes, result: ProofResult, gate: PermissionGate,
                                approvedAt: Stamp, checkedAt: Stamp, maxAge: int, maxSkew: int)
    requires Rounds(round) && OnlyAgeIsOpen(h, result, gate)
    requires Valid(approvedAt) && Valid(checkedAt) && approvedAt.year <= 2105 && checkedAt.year <= 2105
    ensures var age := Instant(approvedAt) - Instant(checkedAt);
      var built := Builds(round, h, result, gate, approvedAt, checkedAt, maxAge, maxSkew);
      && (-maxSkew as real + 0.000001 <= age <= maxAge as real - 0.000001 ==> built)
      && (built ==> -maxSkew as real - 0.000001 < age < maxAge as real + 0.000001)
  {
    hide Rounds, Accepted, Whole, Seconds, OnlyAgeIsOpen, Builds, Pow2, Instant;
    AcceptedIfValid(approvedAt);
    AcceptedIfValid(checkedAt);
    BuildsIff(round, h, result, gate, approvedAt, checkedAt, maxAge, maxSkew);
    AgeError(round, approvedAt, checkedAt);
  }

  lemma AcceptedIfValid(t: Stamp)
    requires Valid(t)
    ensures Accepted(t)
  {}

  lemma AgeError(round: real -> real, a: Stamp, c: Stamp)
    requires Rounds(round) && Valid(a) && Valid(c) && a.year <= 2105 && c.year <= 2105
    ensures Abs(round(Seconds(round, a) - Seconds(round, c)) - (Instant(a) - Instant(c))) < 0.000001
  {
    hide Rounds, Accepted, Whole, Seconds, Pow2, Instant;
    PowersOfTwo();
    SizeUntil2105(a);
    SizeUntil2105(c);
    SecondsNear(round, a, 21);
    SecondsNear(round, c, 21);
    ReadFromWhole(round, a);
    ReadFromWhole(round, c);
    SecondsBelow(round, a);
    SecondsBelow(round, c);
    ErrorWithin(round, Seconds(round, a) - Seconds(round, c), 21);
  }

  lemma SizeUntil2105(t: Stamp)
    requires Valid(t) && t.year <= 2105
    ensures Accepted(t) && 0 <= Whole(t) < 4294967295
  {
    hide Whole;
    WholeBelow(t, 2105);
  }

  lemma SecondsBelow(round: real -> real, t: Stamp)
    requires Rounds(round) && Accepted(t) && Whole(t) >= 0
    ensures Seconds(round, t) <= (Whole(t) + 1) as real
  {
    hide Rounds, Accepted, Whole;
    ReadingInRange(t);
    ReadFromWhole(round, t);
    IntegerRead(round, Whole(t) + 1);
    RoundsMonotonically(round, Whole(t) as real + round(t.fraction), (Whole(t) + 1) as real);
  }
}
