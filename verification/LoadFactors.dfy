/** The load factor and the thresholds of the hash map, in double precision as the program computes
    them. */
module LoadFactors {
  import opened Bits
  import opened Doubles
  import opened Floats

  const LOWEST: real := 0.5
  const HIGHEST: real := 0.95

  /** The factor, or the given one for not-a-number, within the bounds. */
  function Clamped(factor: Number, given: real): (c: real)
    requires given >= 0.0
    ensures c >= 0.0
  {
    match factor
    case NaN => given
    case NegativeZero => LOWEST
    case Infinite(negative) => if negative then LOWEST else Rounded(HIGHEST)
    case Finite(x) => if x < LOWEST then LOWEST else if x > Rounded(HIGHEST) then Rounded(HIGHEST) else x
  }

  /** A factor of some per cent. */
  function Factor(percent: nat): (f: real)
    ensures f >= 0.0
  {
    Rounded(percent as real / 100.0)
  }

  /** A factor in whole per cent. */
  function Percent(x: real): int
    requires x >= 0.0
  {
    Rounded(x * 100.0).Floor
  }

  /** The new load factor. */
  function NewPercent(factor: Number, current: nat): int {
    Percent(Clamped(factor, Factor(current)))
  }

  // ---------------------------------------------------------------- the load factor

  const EPSILON: real := 0.000_000_001

  lemma FiveHalves(k: nat)
    ensures 32.0 * Halved(k + 5) == Halved(k)
  {
    assert Halved(k + 1) == Halved(k) / 2.0 && Halved(k + 2) == Halved(k + 1) / 2.0;
    assert Halved(k + 3) == Halved(k + 2) / 2.0 && Halved(k + 4) == Halved(k + 3) / 2.0;
  }

  lemma TwentyHalves(k: nat)
    ensures 1_048_576.0 * Halved(k + 20) == Halved(k)
  {
    FiveHalves(k);
    FiveHalves(k + 5);
    FiveHalves(k + 10);
    FiveHalves(k + 15);
  }

  /** Numbers up to 1000 are rounded by less than a billionth. */
  lemma Close(x: real)
    requires 0.0 <= x <= 1000.0
    ensures x - EPSILON < Rounded(x) < x + EPSILON
  {
    TwentyHalves(0);
    TwentyHalves(20);
    assert Fraction(MANTISSAS - 1, 40) > 1000.0;
    RoundedClose(x, 40);
  }

  /** The integers from 50 on bound the rounded numbers. */
  lemma AtLeast(i: nat, x: real)
    requires i <= 1000 && x >= i as real
    ensures Rounded(x) >= i as real
  {
    assert Fraction(i, 0) == i as real;
    RoundedAtLeast(i, 0, x);
  }

  lemma PercentOf(x: real)
    requires LOWEST <= x <= Rounded(HIGHEST)
    ensures 50 <= Percent(x) <= 95
    ensures Percent(x) as real - EPSILON < 100.0 * x < Percent(x) as real + 1.0 + EPSILON
  {
    Close(HIGHEST);
    Close(x * 100.0);
    AtLeast(50, x * 100.0);
  }

  // ---------------------------------------------------------------- factors in full

  const TWO53: nat := 9007199254740992
  const ULP53: real := 1.0 / 9007199254740992.0
  const ULP47: real := 1.0 / 140737488355328.0
  const ULP46: real := 1.0 / 70368744177664.0

  lemma Ulps()
    ensures Halved(53) == ULP53 && Halved(47) == ULP47 && Halved(46) == ULP46
  {
    TwentyHalves(0);
    TwentyHalves(20);
    FiveHalves(40);
    FiveHalves(45);
    assert Halved(46) == Halved(45) / 2.0 && Halved(47) == Halved(46) / 2.0;
    assert Halved(51) == Halved(50) / 2.0 && Halved(52) == Halved(51) / 2.0 && Halved(53) == Halved(52) / 2.0;
  }

  /** The default of 0.60 gives 60 per cent. */
  lemma DefaultPercent()
    ensures Percent(Rounded(0.6)) == 60
  {
    Ulps();
    RoundsDown(0.6, 5404319552844595, 53, 5404319552844595.0 * ULP53, ULP53);
    RoundsUp(Rounded(0.6) * 100.0, 8444249301319679, 47, 8444249301319679.0 * ULP47, ULP47);
  }

  /** What is left of c hundredths of 2^53 behind the whole part, in hundredths. */
  function Left(c: nat): nat {
    92 * c % 100
  }

  lemma WholePartOf(c: nat) returns (i: nat)
    requires 50 <= c <= 95
    ensures c * TWO53 == 100 * i + Left(c) && Left(c) < 100 && Left(c) != 50
    ensures MANTISSAS / 2 <= i && i + 1 < MANTISSAS
  {
    var q := 92 * c / 100;
    i := c * 90071992547409 + q;
    assert Left(c) == 4 * (23 * c - 25 * q);
  }

  /** The double next to c per cent, from the whole part of its fraction. */
  lemma FactorFrom(c: nat, i: nat, r: nat)
    requires c * TWO53 == 100 * i + r && r < 100 && r != 50 && MANTISSAS / 2 <= i && i + 1 < MANTISSAS
    ensures Factor(c) == (if r < 50 then i else i + 1) as real * ULP53
  {
    Ulps();
    var x, low := c as real / 100.0, i as real * ULP53;
    assert 100.0 * (x - low) == r as real * ULP53;
    if r < 50 {
      RoundsDown(x, i, 53, low, ULP53);
    } else {
      RoundsUp(x, i, 53, low, ULP53);
    }
  }

  /** A hundred times that double: a little less than c, or c itself or a little more. */
  lemma HundredTimes(c: nat)
    requires 50 <= c <= 95
    ensures Left(c) < 100 && Left(c) != 50
    ensures Left(c) < 50 ==> Factor(c) * 100.0 == c as real - Left(c) as real * ULP53
    ensures Left(c) == 0 || Left(c) > 50 ==> c as real <= Factor(c) * 100.0 < c as real + 0.5
  {
    var i := WholePartOf(c);
    FactorFrom(c, i, Left(c));
    assert i as real * ULP53 * 100.0 + Left(c) as real * ULP53 == c as real;
  }

  lemma FromAbove(c: nat, y: real)
    requires 50 <= c <= 95 && c as real <= y < c as real + 0.5
    ensures Rounded(y).Floor == c
  {
    Close(y);
    AtLeast(c, y);
  }

  /** A product just below c beyond 64 is rounded to c. */
  lemma UpBeyond64(c: nat, y: real, r: nat)
    requires 64 < c <= 95 && 0 < r < 50 && y == c as real - r as real * ULP53
    ensures y >= 0.0 && Rounded(y) == c as real
  {
    Ulps();
    var i := c * 0x4000_0000_0000 - 1;
    RoundsUp(y, i, 46, i as real * ULP46, ULP46);
  }

  /** Below 64, where doubles are closer, it is if it is no further than half their distance. */
  lemma UpTo64(c: nat, y: real, r: nat)
    requires 50 <= c < 64 && 0 < r < 32 && y == c as real - r as real * ULP53
    ensures y >= 0.0 && Rounded(y) == c as real
  {
    Ulps();
    var i := c * 0x8000_0000_0000 - 1;
    RoundsUp(y, i, 47, i as real * ULP47, ULP47);
  }

  lemma DownTo64(c: nat, y: real, r: nat)
    requires 50 <= c < 64 && 32 < r < 50 && y == c as real - r as real * ULP53
    ensures y >= 0.0 && Rounded(y).Floor == c - 1
  {
    Ulps();
    var i := c * 0x8000_0000_0000 - 1;
    RoundsDown(y, i, 47, i as real * ULP47, ULP47);
  }

  /** Below 64 it is a third to a half only at 57 and 58. */
  lemma LeftBelow64(c: nat)
    requires 50 <= c < 64
    ensures 32 <= Left(c) < 50 <==> c == 57 || c == 58
  {
    var q := 92 * c / 100;
    assert Left(c) == 92 * c - 100 * q && 46 <= q <= 57;
  }

  lemma LeftCases(c: nat, r: nat)
    requires 50 <= c <= 95 && r == Left(c)
    ensures r == 0 || r > 50 ==> c != 57 && c != 58
    ensures 0 < r < 50 ==> c != 64
    ensures 0 < r < 50 && c < 64 ==> if c == 57 || c == 58 then 32 < r else r < 32
  {
    assert Left(57) == 44 && Left(58) == 36 && Left(64) == 88;
    if c < 64 {
      LeftBelow64(c);
    }
  }

  /** The product is rounded to c, unless it is just below it and doubles are close enough there. */
  lemma ProductRounded(c: nat, y: real, r: nat)
    requires 50 <= c <= 95 && r < 100 && r != 50
    requires r < 50 ==> y == c as real - r as real * ULP53
    requires r == 0 || r > 50 ==> c as real <= y < c as real + 0.5
    requires r == 0 || r > 50 ==> c != 57 && c != 58
    requires 0 < r < 50 ==> c != 64
    requires 0 < r < 50 && c < 64 ==> if c == 57 || c == 58 then 32 < r else r < 32
    ensures y >= 0.0 && Rounded(y).Floor == if c == 57 || c == 58 then c - 1 else c
  {
    if r == 0 || r > 50 {
      FromAbove(c, y);
    } else if c >= 64 {
      UpBeyond64(c, y, r);
    } else if r < 32 {
      UpTo64(c, y, r);
    } else {
      DownTo64(c, y, r);
    }
  }

  lemma ProductKeeps(c: nat)
    requires 50 <= c <= 95
    ensures Percent(Factor(c)) == if c == 57 || c == 58 then c - 1 else c
  {
    var r := Left(c);
    HundredTimes(c);
    LeftCases(c, r);
    ProductRounded(c, Factor(c) * 100.0, r);
  }

  /** Not-a-number keeps the load factor if and only if it is not 57 or 58 per cent; these it lowers by
      one. */
  lemma NaNKeeps(current: nat)
    requires 50 <= current <= 95
    ensures NewPercent(NaN, current) == current <==> current != 57 && current != 58
    ensures current == 57 || current == 58 ==> NewPercent(NaN, current) == current - 1
  {
    ProductKeeps(current);
  }

  // ---------------------------------------------------------------- the new load factor

  /** The highest factor gives 95 per cent. */
  lemma HighestPercent()
    ensures Percent(Rounded(HIGHEST)) == 95
  {
    ProductKeeps(95);
    assert 95 as real / 100.0 == HIGHEST;
  }

  lemma LowestPercent()
    ensures Percent(LOWEST) == 50 && LOWEST < Rounded(HIGHEST)
  {
    Close(HIGHEST);
    Close(LOWEST * 100.0);
    AtLeast(50, LOWEST * 100.0);
  }

  lemma FinitePercent(x: real, current: nat)
    ensures 50 <= NewPercent(Finite(x), current) <= 95
    ensures LOWEST <= x <= Rounded(HIGHEST) ==>
      && NewPercent(Finite(x), current) as real - EPSILON < 100.0 * x
      && 100.0 * x < NewPercent(Finite(x), current) as real + 1.0 + EPSILON
    ensures x < LOWEST ==> NewPercent(Finite(x), current) == 50
    ensures x >= Rounded(HIGHEST) ==> NewPercent(Finite(x), current) == 95
  {
    LowestPercent();
    if x >= Rounded(HIGHEST) {
      HighestPercent();
    }
    if LOWEST <= x <= Rounded(HIGHEST) {
      PercentOf(x);
    }
  }

  /** The new load factor is within the bounds. It is the factor in whole per cent, up to the
      rounding of the product; beyond the bounds it is the bound, and not-a-number keeps the current one
      except at 57 and 58. */
  lemma NewPercentIs(factor: Number, current: nat)
    requires 50 <= current <= 95
    ensures 50 <= NewPercent(factor, current) <= 95
    ensures factor.NaN? ==>
      NewPercent(factor, current) == if current == 57 || current == 58 then current - 1 else current
    ensures factor.Finite? && LOWEST <= factor.x <= Rounded(HIGHEST) ==>
      && NewPercent(factor, current) as real - EPSILON < 100.0 * factor.x
      && 100.0 * factor.x < NewPercent(factor, current) as real + 1.0 + EPSILON
    ensures factor == NegativeZero || factor == Infinite(true) || (factor.Finite? && factor.x < LOWEST) ==>
      NewPercent(factor, current) == 50
    ensures factor == Infinite(false) || (factor.Finite? && factor.x >= Rounded(HIGHEST)) ==>
      NewPercent(factor, current) == 95
  {
    match factor
    case NaN => NaNKeeps(current);
    case Finite(x) => FinitePercent(x, current);
    case _ =>
      LowestPercent();
      HighestPercent();
  }

  // ---------------------------------------------------------------- thresholds

  /** The threshold of a table with n buckets. */
  function Threshold(n: nat, percent: nat): int {
    Rounded(Product(n, Factor(percent))).Floor
  }

  lemma {:induction false} NotByFive(n: nat, p: nat)
    requires IsPow2(n) && n * p % 25 == 0
    ensures p % 25 == 0
  {
    if n > 1 {
      HalfOfPow2(n);
      TwiceIs(n / 2, p);
      NotByFive(n / 2, p);
    }
  }

  lemma TwiceIs(h: nat, p: nat)
    requires 2 * h * p % 25 == 0
    ensures h * p % 25 == 0
  {
    var q := h * p;
    assert 2 * h * p == 2 * q;
  }

  lemma Quarters(h: nat, p: nat, n: nat)
    requires n == 4 * h
    ensures n * p == 4 * (h * p)
  {
  }

  lemma NotAHundredth(q: nat, m: nat)
    requires q == 4 * m && q % 25 != 0
    ensures 4 <= q % 100 <= 96
  {
    var w, r := q / 100, q % 100;
    assert r == 4 * (m - 25 * w);
    assert r == 0 ==> q == 25 * (4 * w);
  }

  /** Between two integers the product keeps a distance from both, unless the per cent are a quarter. */
  lemma KeepsDistance(n: nat, percent: nat)
    requires IsPow2(n) && n >= 4 && percent % 25 != 0
    ensures 4 <= n * percent % 100 <= 96
  {
    HalfOfPow2(n);
    HalfOfPow2(n / 2);
    Quarters(n / 4, percent, n);
    if n * percent % 25 == 0 {
      NotByFive(n, percent);
    }
    NotAHundredth(n * percent, n / 4 * percent);
  }

  /** An integer part that rounding errors do not reach. */
  lemma WholePart(q: nat, t: real, error: real)
    requires 4 <= q % 100 <= 96 && 0.0 <= error < 0.04
    requires q as real / 100.0 - error <= t <= q as real / 100.0 + error
    ensures t.Floor == q / 100
  {
    var w, r := q / 100, q % 100;
    assert q as real / 100.0 == w as real + r as real / 100.0;
  }

  const LARGEST: nat := Pow2(46)

  lemma FactorClose(percent: nat)
    requires 1 <= percent <= 95
    ensures percent as real / 100.0 - Halved(6 + 46) <= Factor(percent)
    ensures Factor(percent) <= percent as real / 100.0 + Halved(6 + 46)
  {
    Ulps();
    assert Halved(53) == Halved(52) / 2.0;
    assert Fraction(MANTISSAS - 1, 52) > 1.0;
    RoundedClose(percent as real / 100.0, 52);
  }

  lemma QuarterFactor(percent: nat)
    requires percent == 25 || percent == 50 || percent == 75
    ensures Factor(percent) == percent as real / 100.0
  {
    var i: nat := if percent == 25 then 1 else if percent == 50 then 2 else 3;
    FractionExact(i, 2);
    QuarterFraction(i);
  }

  lemma QuarterFraction(i: nat)
    ensures Fraction(i, 2) == (25 * i) as real / 100.0
  {
    assert Halved(2) == Halved(1) / 2.0 && Halved(1) == Halved(0) / 2.0;
  }

  lemma {:induction false} DoubledHundredths(n: nat, percent: nat)
    requires IsPow2(n)
    ensures Doubling(percent as real / 100.0, n) == (n * percent) as real / 100.0
  {
    if n > 1 {
      HalfOfPow2(n);
      DoubledHundredths(n / 2, percent);
      Halves(n / 2, percent, n);
    }
  }

  lemma Halves(h: nat, p: nat, n: nat)
    requires n == 2 * h
    ensures n * p == 2 * (h * p)
  {
  }

  lemma SmallError(n: nat)
    requires n <= LARGEST
    ensures 0.0 <= Doubling(Halved(6 + 46), n) < 0.04
  {
    DoublingHalved(6, n, 46);
    FiveHalves(0);
    assert Halved(6) == Halved(5) / 2.0;
  }

  lemma ProductFloor(n: nat, percent: nat, q: nat)
    requires n <= LARGEST && 1 <= percent <= 95
    requires Doubling(percent as real / 100.0, n) == q as real / 100.0
    requires percent % 25 != 0 ==> 4 <= q % 100 <= 96
    ensures Doubling(Factor(percent), n).Floor == q / 100
  {
    if percent % 25 == 0 {
      QuarterFactor(percent);
      FloorOfHundredths(q);
    } else {
      ProductClose(n, percent);
      WholePart(q, Doubling(Factor(percent), n), Doubling(Halved(6 + 46), n));
    }
  }

  lemma ProductClose(n: nat, percent: nat)
    requires n <= LARGEST && 1 <= percent <= 95
    ensures var y, e := Doubling(percent as real / 100.0, n), Doubling(Halved(6 + 46), n);
      0.0 <= e < 0.04 && y - e <= Doubling(Factor(percent), n) <= y + e
  {
    FactorClose(percent);
    DoublingClose(Factor(percent), percent as real / 100.0, Halved(6 + 46), n);
    SmallError(n);
  }

  /** In tables of 4 to 2^46 buckets, a power of two, the thresholds are whole divisions. */
  lemma ThresholdIsPercent(n: nat, percent: nat)
    requires IsPow2(n) && 4 <= n <= LARGEST && 1 <= percent <= 95
    ensures Threshold(n, percent) == n * percent / 100
  {
    ThresholdIsDoubling(n, percent);
    ProductExact(percent as real / 100.0, n);
    DoubledHundredths(n, percent);
    if percent % 25 != 0 {
      KeepsDistance(n, percent);
    }
    ProductFloor(n, percent, n * percent);
  }

  lemma ThresholdIsDoubling(n: nat, percent: nat)
    requires IsPow2(n)
    ensures Threshold(n, percent) == Rounded(Doubling(Factor(percent), n)).Floor
  {
    DoublingIsProduct(Factor(percent), n);
  }

  lemma FloorOfHundredths(q: nat)
    ensures (q as real / 100.0).Floor == q / 100
  {
    assert q as real / 100.0 == (q / 100) as real + (q % 100) as real / 100.0;
  }
}
