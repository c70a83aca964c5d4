/**
  Bytes and the two bitwise operators the audio output applies to unsigned
  `size_t` values: `&` (cursor wrap-around) and `<<` (bytes per sample).
  Values are mathematical naturals; every operand in the audio code stays far
  below 2^64, so no truncation is modelled.
 */
module Bits {

  /** An unsigned 8-bit value (`rdr::U8`), the element type of the sample buffer. */
  newtype byte = x: int | 0 <= x < 256

  /** `n` is 1, 2, 4, 8, ... */
  predicate IsPowerOfTwo(n: nat)
    decreases n
  {
    n == 1 || (n > 1 && n % 2 == 0 && IsPowerOfTwo(n / 2))
  }

  /** Bitwise AND of two unsigned integers, bit by bit from the least significant one. */
  function BitAnd(a: nat, b: nat): (r: nat)
    ensures r <= a && r <= b
    decreases a
  {
    if a == 0 || b == 0 then 0
    else 2 * BitAnd(a / 2, b / 2) + (if a % 2 == 1 && b % 2 == 1 then 1 else 0)
  }

  /** 2^k. */
  function Pow2(k: nat): (p: nat)
    ensures p >= 1
  {
    if k == 0 then 1 else 2 * Pow2(k - 1)
  }

  /** Left shift `x << k` of an unsigned integer (no bits are lost): `x * 2^k`. */
  function ShiftLeft(x: nat, k: nat): (r: nat)
    ensures r == x * Pow2(k)
    decreases k
  {
    if k == 0 then x
    else
      assert 2 * (x * Pow2(k - 1)) == x * (2 * Pow2(k - 1));
      2 * ShiftLeft(x, k - 1)
  }

  /** Shifting left by `k` multiplies by 2^k; in particular a power of two stays one. */
  lemma {:induction false} ShiftLeftPowerOfTwo(x: nat, k: nat)
    requires IsPowerOfTwo(x)
    ensures IsPowerOfTwo(ShiftLeft(x, k))
    ensures ShiftLeft(x, k) >= x
    decreases k
  {
    if k > 0 {
      ShiftLeftPowerOfTwo(x, k - 1);
      var y := ShiftLeft(x, k - 1);
      assert 2 * y / 2 == y;
    }
  }

  /** Shifting left by one, two or three bits doubles, quadruples or octuples. */
  lemma ShiftLeftSmall(x: nat)
    ensures ShiftLeft(x, 0) == x
    ensures ShiftLeft(x, 1) == 2 * x
    ensures ShiftLeft(x, 2) == 4 * x
    ensures ShiftLeft(x, 3) == 8 * x
  {
  }

  /** Euclidean remainder by an even divisor, computed from the halves. */
  lemma ModOfDouble(x: nat, h: nat)
    requires h > 0
    ensures x % (2 * h) == 2 * ((x / 2) % h) + x % 2
  {
    var q, r := x / 2, x % 2;
    var s, t := q / h, q % h;
    assert q == h * s + t;
    assert x == (2 * h) * s + (2 * t + r) by {
      assert x == 2 * q + r;
      assert 2 * q == 2 * (h * s) + 2 * t;
      assert 2 * (h * s) == (2 * h) * s;
    }
    assert 0 <= 2 * t + r < 2 * h;
    ModUnique(x, 2 * h, s, 2 * t + r);
  }

  /** The remainder is the unique `r` with `x == d * q + r` and `0 <= r < d`. */
  lemma ModUnique(x: nat, d: nat, q: nat, r: nat)
    requires d > 0 && r < d && x == d * q + r
    ensures x % d == r && x / d == q
  {
    var q', r' := x / d, x % d;
    assert d * q' + r' == d * q + r;
    if q' < q {
      MulMonotone(d, q' + 1, q);
    } else if q' > q {
      MulMonotone(d, q + 1, q');
    }
  }

  lemma MulMonotone(d: nat, a: nat, b: nat)
    requires a <= b
    ensures d * a <= d * b
  {
    assert d * b == d * a + d * (b - a);
  }

  /**
    The wrap-around mask used by the cursors: for a power-of-two `n`, `x & (n - 1)`
    is `x % n`. Without the power-of-two premise this fails (5 & 2 == 0 but 5 % 3 == 2).
   */
  lemma {:induction false} MaskIsModulo(x: nat, n: nat)
    requires IsPowerOfTwo(n)
    ensures BitAnd(x, n - 1) == x % n
    decreases n
  {
    if n == 1 {
      ModUnique(x, 1, x, 0);
    } else if x == 0 {
      ModUnique(0, n, 0, 0);
    } else {
      var h := n / 2;
      HalfMask(n);
      var low := BitAnd(x / 2, h - 1);
      BitAndOdd(x, n - 1);
      assert BitAnd(x, n - 1) == 2 * low + x % 2;
      MaskIsModulo(x / 2, h);
      assert low == (x / 2) % h;
      ModOfDouble(x, h);
      assert x % (2 * h) == 2 * low + x % 2;
    }
  }

  /** The mask of a power of two `n > 1` is odd and halves to the mask of `n / 2`. */
  lemma HalfMask(n: nat)
    requires IsPowerOfTwo(n) && n > 1
    ensures n == 2 * (n / 2) && n - 1 > 0 && (n - 1) % 2 == 1 && (n - 1) / 2 == n / 2 - 1
  {
    var h := n / 2;
    assert n % 2 == 0 && n == 2 * h;
    ModUnique(n - 1, 2, h - 1, 1);
  }

  /** One step of `BitAnd` against an odd mask keeps the low bit of `x`. */
  lemma BitAndOdd(x: nat, m: nat)
    requires x > 0 && m % 2 == 1
    ensures BitAnd(x, m) == 2 * BitAnd(x / 2, m / 2) + x % 2
  {
  }

  /** A product of two powers of two is a power of two. */
  lemma {:induction false} PowerOfTwoProduct(a: nat, b: nat)
    requires IsPowerOfTwo(a) && IsPowerOfTwo(b)
    ensures IsPowerOfTwo(a * b)
    decreases a
  {
    if a > 1 {
      PowerOfTwoProduct(a / 2, b);
      var c := (a / 2) * b;
      assert a * b == 2 * c;
      assert c > 0;
      assert (a * b) / 2 == c;
    }
  }

  /** Of two distinct powers of two, the smaller is at most half the larger. */
  lemma {:induction false} SmallerPowerOfTwo(p: nat, q: nat)
    requires IsPowerOfTwo(p) && IsPowerOfTwo(q) && p < q
    ensures p <= q / 2
    decreases q
  {
    if p > 1 {
      SmallerPowerOfTwo(p / 2, q / 2);
    }
  }

  /**
    `r` is the smallest power of two that is at least `e`: a power of two that
    reaches `e` while its half (when it has one) does not.
   */
  predicate IsLeastPowerOfTwoAtLeast(r: nat, e: nat)
  {
    IsPowerOfTwo(r) && e <= r && (r == 1 || r / 2 < e)
  }

  /**
    The least power of two that is at least `e`, found by doubling `r`, a
    power of two whose half (when it has one) is still below `e`.
   */
  function LeastPowerOfTwoFrom(r: nat, e: nat): (p: nat)
    requires IsPowerOfTwo(r) && (r == 1 || r / 2 < e)
    ensures IsLeastPowerOfTwoAtLeast(p, e)
    decreases if r < e then e - r else 0
  {
    if e <= r then r
    else
      assert (2 * r) / 2 == r;
      LeastPowerOfTwoFrom(2 * r, e)
  }

  /** The least power of two that is at least `e`. */
  function LeastPowerOfTwoAtLeast(e: nat): (p: nat)
    ensures IsLeastPowerOfTwoAtLeast(p, e)
  {
    LeastPowerOfTwoFrom(1, e)
  }

  /** No power of two that reaches `e` is below the least one. */
  lemma LeastPowerOfTwoIsMinimal(r: nat, e: nat, p: nat)
    requires IsLeastPowerOfTwoAtLeast(r, e)
    requires IsPowerOfTwo(p) && e <= p
    ensures r <= p
  {
    if p < r {
      SmallerPowerOfTwo(p, r);
    }
  }

  /** The least power of two reaching `e` is unique. */
  lemma LeastPowerOfTwoUnique(r: nat, r': nat, e: nat)
    requires IsLeastPowerOfTwoAtLeast(r, e) && IsLeastPowerOfTwoAtLeast(r', e)
    ensures r == r'
  {
    LeastPowerOfTwoIsMinimal(r, e, r');
    LeastPowerOfTwoIsMinimal(r', e, r);
  }
}
