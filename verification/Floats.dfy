/** Binary floating-point numbers (IEEE 754), as a data view writes and reads them. */
module Floats {
  import opened Bits

  /** A number of the language. */
  datatype Number = Finite(x: real) | NegativeZero | Infinite(negative: bool) | NaN

  /** A format: `base` fractions for each exponent, the pattern of infinity, the sign bit, and the
      least positive number. */
  datatype Format = Format(base: nat, infinity: nat, sign: nat, unit: real) {
    predicate Valid() {
      base >= 1 && infinity >= 1 && infinity < sign && unit > 0.0
    }
  }

  /** 2 to the power of -k. */
  function Halved(k: nat): (h: real)
    ensures h > 0.0
  {
    if k == 0 then 1.0 else Halved(k - 1) / 2.0
  }

  function Single(unit: real): Format {
    Format(0x80_0000, 0x7F80_0000, 0x8000_0000, unit)
  }

  function Double(unit: real): Format {
    Format(0x10_0000_0000_0000, 0x7FF0_0000_0000_0000, 0x8000_0000_0000_0000, unit)
  }

  /** The format of n bytes. */
  function FormatOf(n: nat): (f: Format)
    ensures f.Valid()
  {
    if n == 4 then Single(Halved(n + 145)) else Double(Halved(n + 1066))
  }

  // ---------------------------------------------------------------- the non-negative numbers

  /** Pattern k as a multiple of the least positive number: up to the second exponent the pattern
      itself, and from one exponent to the next twice as much. */
  function Steps(base: nat, k: nat): nat
    requires base >= 1
  {
    if k < 2 * base then k else 2 * Steps(base, k - base)
  }

  /** The exponent and the fraction of the standard, with the hidden bit for normal numbers. */
  lemma {:induction false} StepsOfNormal(base: nat, e: nat, m: nat)
    requires base >= 1 && e >= 1 && m < base
    ensures Steps(base, e * base + m) == (base + m) * Pow2(e - 1)
  {
    if e > 1 {
      StepsOfNormal(base, e - 1, m);
      NextExponent(base, e - 1, m);
      DoubledFactor(base + m, Pow2(e - 2));
    }
  }

  lemma NextExponent(base: nat, e: nat, m: nat)
    requires base >= 1 && e >= 1
    ensures Steps(base, (e + 1) * base + m) == 2 * Steps(base, e * base + m)
  {
    var q := e * base;
    assert (e + 1) * base == q + base;
    assert q >= base by {
      MulGrows(base, e);
    }
  }

  lemma {:induction false} StepsGrow(base: nat, j: nat, k: nat)
    requires base >= 1 && j < k
    ensures Steps(base, j) < Steps(base, k)
    decreases k
  {
    if k >= 2 * base {
      if j >= 2 * base {
        StepsGrow(base, j - base, k - base);
      } else if base < k - base {
        StepsGrow(base, base, k - base);
      }
    }
  }

  function Value(f: Format, k: nat): real
    requires f.Valid()
  {
    Steps(f.base, k) as real * f.unit
  }

  lemma ValuesGrow(f: Format, j: nat, k: nat)
    requires f.Valid() && j < k
    ensures Value(f, j) < Value(f, k)
  {
    StepsGrow(f.base, j, k);
    Scaled(Steps(f.base, j) as real, Steps(f.base, k) as real, f.unit);
  }

  lemma Scaled(a: real, b: real, u: real)
    requires a < b && u > 0.0
    ensures a * u < b * u
  {
    assert (b - a) * u > 0.0;
  }

  /** The greatest pattern up to k whose value is at most y. */
  function Floor(f: Format, y: real, k: nat): (m: nat)
    requires f.Valid() && y >= 0.0
    ensures m <= k && Value(f, m) <= y && (m < k ==> y < Value(f, m + 1))
  {
    if k == 0 || Value(f, k) <= y then k else Floor(f, y, k - 1)
  }

  /** Rounding to the nearest number, a tie to the even pattern; beyond the middle between the
      greatest number and the next power of two, to infinity. */
  function Round(f: Format, y: real): (k: nat)
    requires f.Valid() && y >= 0.0
    ensures k <= f.infinity
  {
    var k := Floor(f, y, f.infinity);
    if k == f.infinity then k
    else
      var down, up := y - Value(f, k), Value(f, k + 1) - y;
      if down < up || (down == up && k % 2 == 0) then k else k + 1
  }

  function Distance(f: Format, y: real, k: nat): real
    requires f.Valid()
  {
    if y <= Value(f, k) then Value(f, k) - y else y - Value(f, k)
  }

  /** No number of the format is nearer. */
  lemma RoundIsNearest(f: Format, y: real, k: nat)
    requires f.Valid() && 0.0 <= y <= Value(f, f.infinity) && k <= f.infinity
    ensures Distance(f, y, Round(f, y)) <= Distance(f, y, k)
  {
    var m := Floor(f, y, f.infinity);
    if k < m {
      ValuesGrow(f, k, m);
    } else if k > m + 1 {
      ValuesGrow(f, m + 1, k);
    }
  }

  /** In the middle between two numbers, rounding takes the even pattern. */
  lemma TiesToEven(f: Format, k: nat, y: real)
    requires f.Valid() && k + 1 < f.infinity && Value(f, k) >= 0.0 && 2.0 * y == Value(f, k) + Value(f, k + 1)
    ensures y >= 0.0 && Round(f, y) == if k % 2 == 0 then k else k + 1
  {
    ValuesGrow(f, k, k + 1);
    var m := Floor(f, y, f.infinity);
    if m < k {
      ValuesBelow(f, m + 1, k);
    } else if m > k {
      ValuesBelow(f, k + 1, m);
    }
  }

  lemma ValuesBelow(f: Format, j: nat, k: nat)
    requires f.Valid() && j <= k
    ensures Value(f, j) <= Value(f, k)
  {
    if j < k {
      ValuesGrow(f, j, k);
    }
  }

  /** A number of the format is not rounded. */
  lemma RoundExact(f: Format, k: nat)
    requires f.Valid() && k < f.infinity
    ensures Value(f, k) >= 0.0 && Round(f, Value(f, k)) == k
  {
    var y := Value(f, k);
    assert y >= 0.0 by {
      if k > 0 {
        ValuesGrow(f, 0, k);
      }
    }
    var m := Floor(f, y, f.infinity);
    if m < k {
      if m + 1 < k {
        ValuesGrow(f, m + 1, k);
      }
    } else if m > k {
      ValuesGrow(f, k, m);
    }
    ValuesGrow(f, k, k + 1);
  }

  // ---------------------------------------------------------------- patterns

  /** The pattern without its sign. */
  function Magnitude(f: Format, p: nat): nat {
    if p >= f.sign then p - f.sign else p
  }

  predicate IsNaN(f: Format, p: nat) {
    Magnitude(f, p) > f.infinity
  }

  /** What a setter writes for a number, where `nan` is the pattern the implementation has chosen. */
  function Written(f: Format, v: Number, nan: nat): (p: nat)
    requires f.Valid()
    ensures v != NaN || nan < 2 * f.sign ==> p < 2 * f.sign
  {
    match v
    case Finite(x) => if x < 0.0 then f.sign + Round(f, -x) else Round(f, x)
    case NegativeZero => f.sign
    case Infinite(negative) => if negative then f.sign + f.infinity else f.infinity
    case NaN => nan
  }

  /** What a getter reads: all NaN patterns are the same number. */
  function Read(f: Format, p: nat): Number
    requires f.Valid()
  {
    var k := Magnitude(f, p);
    if k > f.infinity then NaN
    else if k == f.infinity then Infinite(p >= f.sign)
    else if p < f.sign then Finite(Value(f, k))
    else if k == 0 then NegativeZero
    else Finite(-Value(f, k))
  }

  /** A pattern that is read and written again is the same, or it was a NaN and is the chosen one. */
  lemma WrittenRead(f: Format, p: nat, nan: nat)
    requires f.Valid() && p < 2 * f.sign
    ensures Written(f, Read(f, p), nan) == if IsNaN(f, p) then nan else p
  {
    var k := Magnitude(f, p);
    if k < f.infinity {
      RoundExact(f, k);
      if k > 0 {
        ValuesGrow(f, 0, k);
      }
    }
  }

  // ---------------------------------------------------------------- the two formats

  lemma {:induction false} Pow2Halved(j: nat, k: nat)
    ensures Pow2(j) as real * Halved(j + k) == Halved(k)
  {
    if j > 0 {
      Pow2Halved(j - 1, k);
      assert Halved(j + k) == Halved(j - 1 + k) / 2.0;
      TwiceHalf(Pow2(j - 1), Halved(j - 1 + k));
    }
  }

  lemma TwiceHalf(a: nat, h: real)
    ensures (2 * a) as real * (h / 2.0) == a as real * h
  {
  }

  lemma {:induction false} Pow2Sum(j: nat, k: nat)
    ensures Pow2(j + k) == Pow2(j) * Pow2(k)
  {
    if j > 0 {
      Pow2Sum(j - 1, k);
      assert Pow2(j + k) == 2 * Pow2(j - 1 + k);
      DoubledLeft(Pow2(j - 1), Pow2(k));
    }
  }

  lemma DoubledLeft(a: nat, b: nat)
    ensures 2 * a * b == 2 * (a * b)
  {
  }

  lemma StepsOfOne(base: nat, j: nat, e: nat, k: nat)
    requires base == Pow2(j) && e >= 1 && k == e * base
    ensures Steps(base, k) == Pow2(j + (e - 1))
  {
    StepsOfNormal(base, e, 0);
    Pow2Sum(j, e - 1);
  }

  lemma PowerTimesUnit(n: nat, u: real)
    requires u == Halved(n)
    ensures Pow2(n) as real * u == 1.0
  {
    Pow2Halved(n, 0);
  }

  /** A format with 2^j fractions for each exponent: the pattern whose exponent is the bias is one. */
  lemma OneIs(f: Format, j: nat, bias: nat, k: nat)
    requires f.Valid() && f.base == Pow2(j) && bias >= 1 && k == bias * f.base
    requires f.unit == Halved(j + (bias - 1))
    ensures Value(f, k) == 1.0
  {
    StepsOfOne(f.base, j, bias, k);
    PowerTimesUnit(j + (bias - 1), f.unit);
  }

  lemma Bases()
    ensures Pow2(23) == 0x80_0000 && Pow2(52) == 0x10_0000_0000_0000
  {
    assert Pow2(3) == 8;
    SixteenTimesPow2(3);
    SixteenTimesPow2(7);
    SixteenTimesPow2(11);
    SixteenTimesPow2(15);
    SixteenTimesPow2(19);
    assert Pow2(24) == 2 * Pow2(23);
    SixteenTimesPow2(24);
    SixteenTimesPow2(28);
    SixteenTimesPow2(32);
    SixteenTimesPow2(36);
    SixteenTimesPow2(40);
    SixteenTimesPow2(44);
    SixteenTimesPow2(48);
  }

  /** The patterns of single precision. */
  lemma SinglePatterns()
    ensures Read(FormatOf(4), 0x3F80_0000) == Finite(1.0) && Read(FormatOf(4), 0xBF80_0000) == Finite(-1.0)
    ensures Read(FormatOf(4), 0x7F80_0000) == Infinite(false) && Read(FormatOf(4), 0xFF80_0000) == Infinite(true)
    ensures Read(FormatOf(4), 0x8000_0000) == NegativeZero && Read(FormatOf(4), 0x7FC0_0000) == NaN
  {
    Bases();
    OneIs(FormatOf(4), 23, 127, 0x3F80_0000);
  }

  /** The patterns of double precision. */
  lemma DoublePatterns()
    ensures Read(FormatOf(8), 0x3FF0_0000_0000_0000) == Finite(1.0)
    ensures Read(FormatOf(8), 0xBFF0_0000_0000_0000) == Finite(-1.0)
    ensures Read(FormatOf(8), 0x7FF0_0000_0000_0000) == Infinite(false)
    ensures Read(FormatOf(8), 0xFFF0_0000_0000_0000) == Infinite(true)
    ensures Read(FormatOf(8), 0x8000_0000_0000_0000) == NegativeZero
    ensures Read(FormatOf(8), 0x7FF8_0000_0000_0000) == NaN
  {
    Bases();
    OneIs(FormatOf(8), 52, 1023, 0x3FF0_0000_0000_0000);
  }
}
