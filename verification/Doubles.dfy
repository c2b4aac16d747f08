/** Double-precision results, as the hash map computes its factors and thresholds. */
module Doubles {
  import opened Bits
  import opened Floats

  // ---------------------------------------------------------------- fractions in a format

  /** i / 2^g */
  function Fraction(i: nat, g: nat): real {
    i as real * Halved(g)
  }

  lemma TwiceProduct(a: nat, u: real)
    ensures (2 * a) as real * u == 2.0 * (a as real * u)
  {
  }

  lemma FinerFraction(i: nat, g: nat)
    ensures Fraction(i, g) == 2.0 * Fraction(i, g + 1)
  {
    assert Halved(g) == 2.0 * Halved(g + 1);
    assert i as real * (2.0 * Halved(g + 1)) == 2.0 * (i as real * Halved(g + 1));
  }

  /** Twice a number of the format is one too, at most an exponent further. */
  lemma ValueDoubled(f: Format, k: nat) returns (d: nat)
    requires f.Valid()
    ensures d <= k + f.base && Value(f, d) == 2.0 * Value(f, k)
  {
    d := if k < f.base then 2 * k else k + f.base;
    assert Steps(f.base, d) == 2 * Steps(f.base, k);
    TwiceProduct(Steps(f.base, k), f.unit);
  }

  /** The fractions with as many bits as the format has are numbers of the format. */
  lemma {:induction false} OnGrid(f: Format, i: nat, g: nat, j: nat, span: nat) returns (d: nat)
    requires f.Valid() && f.unit == Halved(g + j) && i < 2 * f.base
    requires span >= i + j * f.base
    ensures d <= span && Value(f, d) == Fraction(i, g)
    decreases j
  {
    if j == 0 {
      d := i;
    } else {
      NextMultiple(j - 1, f.base);
      var c := OnGrid(f, i, g + 1, j - 1, span - f.base);
      d := ValueDoubled(f, c);
      FinerFraction(i, g);
    }
  }

  lemma NextMultiple(j: nat, b: nat)
    ensures (j + 1) * b == j * b + b
  {
  }

  /** A number that is at least a number of the format is not rounded below it. */
  lemma RoundAtLeast(f: Format, k: nat, y: real)
    requires f.Valid() && k <= f.infinity && 0.0 <= Value(f, k) <= y
    ensures Round(f, y) >= k
  {
    var m := Floor(f, y, f.infinity);
    if m < k {
      if m + 1 < k {
        ValuesGrow(f, m + 1, k);
      }
    }
  }

  lemma RoundAtMost(f: Format, k: nat, y: real)
    requires f.Valid() && k < f.infinity && 0.0 <= y <= Value(f, k)
    ensures Round(f, y) <= k
  {
    RoundExact(f, k);
    var m := Floor(f, y, f.infinity);
    if m > k {
      ValuesGrow(f, k, m);
    } else if m == k {
      ValuesGrow(f, k, k + 1);
    }
  }

  lemma ValueNotNegative(f: Format, k: nat)
    requires f.Valid()
    ensures Value(f, k) >= 0.0
  {
    if k > 0 {
      ValuesGrow(f, 0, k);
    }
  }

  // ---------------------------------------------------------------- double precision

  const MANTISSAS: nat := 0x20_0000_0000_0000

  /** A non-negative result rounded to double precision. */
  function Rounded(x: real): (r: real)
    requires x >= 0.0
    ensures r >= 0.0
  {
    ValueNotNegative(FormatOf(8), Round(FormatOf(8), x));
    Value(FormatOf(8), Round(FormatOf(8), x))
  }

  /** A fraction of 53 bits is a double. */
  lemma DoubleOf(i: nat, g: nat) returns (d: nat)
    requires i < MANTISSAS && g <= 1074
    ensures d <= i + (1074 - g) * 0x10_0000_0000_0000 && d < FormatOf(8).infinity
    ensures Value(FormatOf(8), d) == Fraction(i, g) >= 0.0
  {
    d := OnGrid(FormatOf(8), i, g, 1074 - g, i + (1074 - g) * 0x10_0000_0000_0000);
  }

  /** A fraction of 53 bits is not rounded. */
  lemma FractionExact(i: nat, g: nat)
    requires i < MANTISSAS && g <= 1074
    ensures Fraction(i, g) >= 0.0 && Rounded(Fraction(i, g)) == Fraction(i, g)
  {
    var d := DoubleOf(i, g);
    RoundExact(FormatOf(8), d);
  }

  lemma NextFraction(i: nat, g: nat)
    ensures Fraction(i + 1, g) == Fraction(i, g) + Halved(g)
  {
  }

  /** The fractions between which a number lies. */
  lemma {:induction false} Between(x: real, g: nat, k: nat) returns (i: nat)
    requires 0.0 <= x < Fraction(k + 1, g)
    ensures i <= k && Fraction(i, g) <= x < Fraction(i + 1, g)
  {
    if Fraction(k, g) <= x {
      return k;
    }
    i := Between(x, g, k - 1);
  }

  /** Where there are fractions of 53 bits, rounding is no further than their distance. */
  lemma RoundedClose(x: real, g: nat)
    requires g <= 1074 && 0.0 <= x < Fraction(MANTISSAS - 1, g)
    ensures x - Halved(g) <= Rounded(x) <= x + Halved(g)
  {
    var f := FormatOf(8);
    var i := Between(x, g, MANTISSAS - 2);
    var d := DoubleOf(i, g);
    var e := DoubleOf(i + 1, g);
    NextFraction(i, g);
    ValuesGrow(f, e, f.infinity);
    RoundIsNearest(f, x, d);
  }

  /** A number at or above a fraction of 53 bits is not rounded below it. */
  lemma RoundedAtLeast(i: nat, g: nat, x: real)
    requires i < MANTISSAS && g <= 1074 && 0.0 <= Fraction(i, g) <= x
    ensures Rounded(x) >= Fraction(i, g)
  {
    var f := FormatOf(8);
    var d := DoubleOf(i, g);
    RoundAtLeast(f, d, x);
    if d < Round(f, x) {
      ValuesGrow(f, d, Round(f, x));
    }
  }

  // ---------------------------------------------------------------- neighbours

  lemma {:induction false} NormalPattern(f: Format, i: nat, g: nat, j: nat)
    requires f.Valid() && f.unit == Halved(g + j) && f.base <= i < 2 * f.base
    ensures Value(f, i + j * f.base) == Fraction(i, g)
    decreases j
  {
    if j > 0 {
      NormalPattern(f, i, g + 1, j - 1);
      NextMultiple(j - 1, f.base);
      var c := i + (j - 1) * f.base;
      Further(f, c, i);
      FinerFraction(i, g);
      assert i + j * f.base == c + f.base;
    }
  }

  lemma Further(f: Format, c: nat, i: nat)
    requires f.Valid() && c >= i >= f.base
    ensures Value(f, c + f.base) == 2.0 * Value(f, c)
  {
    TwiceProduct(Steps(f.base, c), f.unit);
  }

  lemma FloorIs(f: Format, x: real, d: nat)
    requires f.Valid() && x >= 0.0 && d < f.infinity && Value(f, d) <= x < Value(f, d + 1)
    ensures Floor(f, x, f.infinity) == d
  {
    var m := Floor(f, x, f.infinity);
    if m < d {
      if m + 1 < d {
        ValuesGrow(f, m + 1, d);
      }
    } else if m > d + 1 {
      ValuesGrow(f, d + 1, m);
    }
  }

  /** A number between two neighbouring fractions is rounded to the nearer one. */
  lemma RoundsTo(x: real, i: nat, g: nat)
    requires MANTISSAS / 2 <= i && i + 1 < MANTISSAS && g <= 1074
    requires Fraction(i, g) <= x < Fraction(i + 1, g)
    ensures x - Fraction(i, g) < Fraction(i + 1, g) - x ==> x >= 0.0 && Rounded(x) == Fraction(i, g)
    ensures x - Fraction(i, g) > Fraction(i + 1, g) - x ==> x >= 0.0 && Rounded(x) == Fraction(i + 1, g)
  {
    var f, j := FormatOf(8), 1074 - g;
    NormalPattern(f, i, g, j);
    NormalPattern(f, i + 1, g, j);
    var d := DoubleOf(i, g);
    FloorIs(f, x, i + j * f.base);
  }

  lemma RoundsDown(x: real, i: nat, g: nat, low: real, u: real)
    requires MANTISSAS / 2 <= i && i + 1 < MANTISSAS && g <= 1074 && u == Halved(g)
    requires low == Fraction(i, g) && low <= x < low + u / 2.0
    ensures x >= 0.0 && Rounded(x) == low
  {
    NextFraction(i, g);
    RoundsTo(x, i, g);
  }

  lemma RoundsUp(x: real, i: nat, g: nat, low: real, u: real)
    requires MANTISSAS / 2 <= i && i + 1 < MANTISSAS && g <= 1074 && u == Halved(g)
    requires low == Fraction(i, g) && low + u / 2.0 < x < low + u
    ensures x >= 0.0 && Rounded(x) == low + u
  {
    NextFraction(i, g);
    RoundsTo(x, i, g);
  }

  // ---------------------------------------------------------------- products with powers of two

  /** x times a power of two, one doubling after the other. */
  function Doubling(x: real, n: nat): (d: real)
    ensures x >= 0.0 ==> d >= 0.0
  {
    if n <= 1 then x else 2.0 * Doubling(x, n / 2)
  }

  /** A product before it is rounded. */
  function Product(n: nat, x: real): (p: real)
    requires x >= 0.0
    ensures p >= 0.0
  {
    n as real * x
  }

  lemma {:induction false} DoublingIsProduct(x: real, n: nat)
    requires IsPow2(n) && x >= 0.0
    ensures Doubling(x, n) == Product(n, x)
  {
    if n > 1 {
      HalfOfPow2(n);
      DoublingIsProduct(x, n / 2);
      TwiceProduct(n / 2, x);
    }
  }

  lemma {:induction false} DoublingClose(x: real, y: real, e: real, n: nat)
    requires y - e <= x <= y + e
    ensures Doubling(y, n) - Doubling(e, n) <= Doubling(x, n) <= Doubling(y, n) + Doubling(e, n)
  {
    if n > 1 {
      DoublingClose(x, y, e, n / 2);
    }
  }

  lemma {:induction false} DoublingHalved(g: nat, n: nat, j: nat)
    requires n <= Pow2(j)
    ensures Doubling(Halved(g + j), n) <= Halved(g)
    decreases j
  {
    if n > 1 {
      DoublingHalved(g + 1, n / 2, j - 1);
    } else {
      HalvedShrinks(g, j);
    }
  }

  lemma {:induction false} HalvedShrinks(g: nat, j: nat)
    ensures Halved(g + j) <= Halved(g)
  {
    if j > 0 {
      HalvedShrinks(g, j - 1);
    }
  }

  lemma {:induction false} DoubledPattern(f: Format, k: nat, n: nat, j: nat, span: nat) returns (d: nat)
    requires f.Valid() && n <= Pow2(j) && span >= k + j * f.base
    ensures d <= span && Value(f, d) == Doubling(Value(f, k), n)
    decreases j
  {
    if n <= 1 {
      NoExponents(k, j, f.base);
      d := k;
    } else {
      NextMultiple(j - 1, f.base);
      var c := DoubledPattern(f, k, n / 2, j - 1, span - f.base);
      d := ValueDoubled(f, c);
    }
  }

  lemma NoExponents(k: nat, j: nat, b: nat)
    ensures k <= k + j * b
  {
  }

  lemma UpToOne(x: real)
    requires 0.0 <= x <= 1.0
    ensures Round(FormatOf(8), x) <= 1 + 1074 * 0x10_0000_0000_0000
  {
    var one := DoubleOf(1, 0);
    assert Fraction(1, 0) == 1.0;
    RoundAtMost(FormatOf(8), one, x);
  }

  /** A double up to 1 times a power of two up to 2^46 is a double, so the product is not rounded. */
  lemma ProductExact(x: real, n: nat)
    requires 0.0 <= x <= 1.0 && n <= Pow2(46)
    ensures Rounded(Doubling(Rounded(x), n)) == Doubling(Rounded(x), n)
  {
    var k := Round(FormatOf(8), x);
    UpToOne(x);
    var d := DoubledPattern(FormatOf(8), k, n, 46, k + 46 * 0x10_0000_0000_0000);
    RoundExact(FormatOf(8), d);
  }
}
