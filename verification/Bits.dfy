/** Powers of two and the bitwise "and" used to wrap a bucket index. */
module Bits {

  function Pow2(k: nat): (p: nat)
    ensures p >= 1
  {
    if k == 0 then 1 else 2 * Pow2(k - 1)
  }

  ghost predicate IsPow2(n: nat)
  {
    n == 1 || (n > 1 && n % 2 == 0 && IsPow2(n / 2))
  }

  /** The bitwise conjunction of two unsigned numbers. */
  function And(a: nat, b: nat): (r: nat)
    ensures r <= b
  {
    if a == 0 || b == 0 then 0
    else 2 * And(a / 2, b / 2) + (if a % 2 == 1 && b % 2 == 1 then 1 else 0)
  }

  lemma HalfOfPow2(n: nat)
    requires IsPow2(n) && n > 1
    ensures IsPow2(n / 2) && n == 2 * (n / 2)
  {
  }

  lemma DoubleOfPow2(n: nat)
    requires IsPow2(n)
    ensures IsPow2(2 * n)
  {
    assert 2 * n / 2 == n;
  }

  lemma {:induction false} ShiftOfPow2(n: nat, k: nat)
    requires IsPow2(n)
    ensures IsPow2(n * Pow2(k))
    ensures k >= 1 ==> n * Pow2(k) >= 2 * n
  {
    if k > 0 {
      ShiftOfPow2(n, k - 1);
      DoubleOfPow2(n * Pow2(k - 1));
      DoubledFactor(n, Pow2(k - 1));
      MulGrows(n, Pow2(k - 1));
    }
  }

  lemma {:induction false} Pow2Grows(j: nat, k: nat)
    requires j <= k
    ensures Pow2(j) <= Pow2(k)
  {
    if j < k {
      Pow2Grows(j, k - 1);
    }
  }

  lemma SixteenTimesPow2(k: nat)
    ensures Pow2(k + 4) == 16 * Pow2(k)
  {
    assert Pow2(k + 1) == 2 * Pow2(k) && Pow2(k + 2) == 2 * Pow2(k + 1) && Pow2(k + 3) == 2 * Pow2(k + 2);
  }

  lemma DoubledFactor(a: nat, b: nat)
    ensures a * (2 * b) == 2 * (a * b)
  {
  }

  lemma MulGrows(a: nat, b: nat)
    requires b >= 1
    ensures a * b >= a
  {
  }

  /** Two different powers of two are at least a factor of two apart. */
  lemma {:induction false} Pow2Gap(a: nat, b: nat)
    requires IsPow2(a) && IsPow2(b) && a < b
    ensures 2 * a <= b
  {
    if a > 1 {
      Pow2Gap(a / 2, b / 2);
    }
  }

  /** Masking with a power of two less one is the remainder: for a table whose size is a power
      of two, `hash & mask` is the home bucket and `(i + 1) & mask` wraps at the end. */
  lemma {:induction false} MaskIsRemainder(x: nat, n: nat)
    requires IsPow2(n)
    ensures And(x, n - 1) == x % n
  {
    if n > 1 {
      var h := n / 2;
      MaskIsRemainder(x / 2, h);
      assert (n - 1) / 2 == h - 1 && (n - 1) % 2 == 1;
      RemainderByDouble(x, h);
    }
  }

  lemma RemainderByDouble(x: nat, h: nat)
    requires h >= 1
    ensures x % (2 * h) == 2 * ((x / 2) % h) + x % 2
  {
    var y := x / 2;
    var q, r := y / h, y % h;
    assert y == q * h + r;
    var rest := 2 * r + x % 2;
    assert x == 2 * y + x % 2;
    assert x == q * (2 * h) + rest;
    assert 0 <= rest < 2 * h;
    RemainderUnique(x, 2 * h, q, rest);
  }

  lemma RemainderUnique(x: int, n: nat, q: int, r: nat)
    requires n >= 1 && r < n && x == q * n + r
    ensures x % n == r
  {
    var q', r' := x / n, x % n;
    assert x == q' * n + r';
    if q' > q {
      assert (q' - q) * n == r - r';
      MulGrows(n, q' - q);
    } else if q' < q {
      assert (q - q') * n == r' - r;
      MulGrows(n, q - q');
    }
  }

  /** Bit i of a number, counted from the lowest. */
  predicate Bit(n: nat, i: nat) {
    if i == 0 then n % 2 == 1 else Bit(n / 2, i - 1)
  }

  lemma {:induction false} NoBits(i: nat)
    ensures !Bit(0, i)
  {
    if i > 0 {
      NoBits(i - 1);
    }
  }

  /** A bit is set exactly where both are. */
  lemma {:induction false} AndBits(a: nat, b: nat, i: nat)
    ensures Bit(And(a, b), i) <==> Bit(a, i) && Bit(b, i)
  {
    NoBits(i);
    if i > 0 && a > 0 && b > 0 {
      AndBits(a / 2, b / 2, i - 1);
    }
  }
}
