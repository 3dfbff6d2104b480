/** Arithmetic that the C sources share: masks, powers of two and truncation on natural numbers, bytes and pages. */
module Bits {

  type byte = bv8

  const PAGE: nat := 4096

  function Min(x: int, y: int): int { if x < y then x else y }
  function Max(x: int, y: int): int { if x > y then x else y }

  const U16: int := 0x1_0000

  /** The value of `x` converted to a 16-bit unsigned integer. */
  function Trunc16(x: int): (r: nat)
    ensures r < U16
  {
    x % U16
  }

  lemma TruncStep(x: int)
    ensures Trunc16(Trunc16(x) + 1) == Trunc16(x + 1)
  {
  }

  lemma TruncSub(x: int, y: int)
    ensures Trunc16(Trunc16(x) - y) == Trunc16(x - y)
  {
  }

  lemma TruncDifference(x: int, y: int)
    requires y <= x < y + U16
    ensures Trunc16(Trunc16(x) - Trunc16(y)) == x - y
  {
    TruncSub(x, Trunc16(y));
    assert Trunc16(x - Trunc16(y)) == Trunc16(x - y);
  }

  function Pow2(k: nat): (r: nat)
    ensures r >= 1
  {
    if k == 0 then 1 else 2 * Pow2(k - 1)
  }

  /** Bitwise and. */
  function And(x: nat, y: nat): nat
    decreases x
  {
    if x == 0 || y == 0 then 0 else (if x % 2 == 1 && y % 2 == 1 then 1 else 0) + 2 * And(x / 2, y / 2)
  }

  /** `x & ~y` */
  function AndNot(x: nat, y: nat): int {
    x - And(x, y)
  }

  lemma MulSign(n: int, d: int)
    requires n > 0
    ensures d >= 1 ==> n * d >= n
    ensures d <= -1 ==> n * d <= -n
    ensures d == 0 ==> n * d == 0
  {
  }

  lemma RemainderUnique(x: int, n: int, q: int, r: int)
    requires n > 0 && 0 <= r < n && x == n * q + r
    ensures x / n == q && x % n == r
  {
    var q', r' := x / n, x % n;
    assert x == n * q' + r' && 0 <= r' < n;
    assert n * (q' - q) == r - r';
    MulSign(n, q' - q);
  }

  lemma HalfRemainder(x: nat, n: nat)
    requires n > 0
    ensures x % (2 * n) == 2 * (x / 2 % n) + x % 2
  {
    var h := x / 2;
    var q, r := h / n, h % n;
    assert h == n * q + r;
    assert n * q + n * q == (2 * n) * q;
    RemainderUnique(x, 2 * n, q, 2 * r + x % 2);
  }

  lemma AndOdd(x: nat, n: nat)
    requires n > 0
    ensures And(x, 2 * n - 1) == x % 2 + 2 * And(x / 2, n - 1)
  {
    var y := 2 * n - 1;
    assert y / 2 == n - 1 && y % 2 == 1;
  }

  /** A ring index is reduced with `& (num - 1)`, which for a power of two is the remainder. */
  lemma {:induction false} MaskIsRemainder(x: nat, k: nat)
    ensures And(x, Pow2(k) - 1) == x % Pow2(k)
    decreases k
  {
    if k > 0 {
      MaskIsRemainder(x / 2, k - 1);
      AndOdd(x, Pow2(k - 1));
      HalfRemainder(x, Pow2(k - 1));
    }
  }

  /** The test `n & (n - 1)` is zero exactly for the powers of two (and for zero, where it wraps). */
  lemma {:induction false} PowerOfTwoTest(n: nat)
    requires n > 0
    ensures And(n, n - 1) == 0 <==> exists k: nat :: n == Pow2(k)
  {
    if n == 1 {
      assert n == Pow2(0);
    } else if n % 2 == 0 {
      PowerOfTwoTest(n / 2);
      assert (n - 1) / 2 == n / 2 - 1;
      if And(n, n - 1) == 0 {
        var k: nat :| n / 2 == Pow2(k);
        assert n == Pow2(k + 1);
      }
      if exists k: nat :: n == Pow2(k) {
        var k: nat :| n == Pow2(k);
        assert k > 0;
        var j: nat := k - 1;
        assert n / 2 == Pow2(j);
        assert And(n / 2, n / 2 - 1) == 0;
      }
    } else {
      assert (n - 1) / 2 == n / 2;
      AndSelf(n / 2);
    }
  }

  lemma {:induction false} AndSelf(n: nat)
    ensures And(n, n) == n
  {
    if n > 0 { AndSelf(n / 2); }
  }

  lemma RemainderOfRemainder(x: int, n: int, m: int)
    requires n > 0 && m > 0 && n * m > 0
    ensures x % (n * m) % n == x % n
  {
    var u, t := x / (n * m), x % (n * m);
    var q, r := t / n, t % n;
    assert x == (n * m) * u + t && t == n * q + r;
    assert (n * m) * u == n * (m * u);
    assert n * (m * u) + n * q == n * (m * u + q);
    RemainderUnique(x, n, m * u + q, r);
  }

  /** A power of two up to 2^16 divides 2^16, so truncation to 16 bits does not move a ring slot. */
  lemma TruncKeepsSlot(x: int, k: nat)
    requires k <= 16
    ensures Trunc16(x) % Pow2(k) == x % Pow2(k)
  {
    Pow2Sum(k, 16 - k);
    Pow2Small();
    RemainderOfRemainder(x, Pow2(k), Pow2(16 - k));
  }

  lemma Pow2Small()
    ensures Pow2(16) == U16
  {
    assert Pow2(4) == 16;
    Pow2Sum(4, 4);
    Pow2Sum(8, 8);
  }

  lemma {:induction false} Pow2Sum(a: nat, b: nat)
    ensures Pow2(a) * Pow2(b) == Pow2(a + b)
  {
    if a > 0 {
      Pow2Sum(a - 1, b);
      assert Pow2(a) * Pow2(b) == 2 * (Pow2(a - 1) * Pow2(b));
    }
  }

  /** Two indices less than `n` apart use different slots. */
  lemma SlotsDiffer(x: int, y: int, n: int)
    requires n > 0 && x < y < x + n
    ensures x % n != y % n
  {
    var p, q := x / n, y / n;
    assert x == n * p + x % n && y == n * q + y % n;
    assert n * (q - p) == n * q - n * p;
    MulSign(n, q - p);
  }
}
