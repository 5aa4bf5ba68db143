/** C#'s fixed-width integers and the operators on `int` that the notification
    descriptor uses, over Dafny's unbounded integers. Negative numbers are read
    in two's complement with infinitely many leading ones, so `|` and `&` are
    defined on every integer and agree with C# on the 32-bit range; the shifts
    move one bit at a time. */
module Integers {
  const TwoTo31: int := 0x8000_0000
  const TwoTo32: int := 0x1_0000_0000

  /** C# `int`. */
  type Int32 = x: int | -0x8000_0000 <= x < 0x8000_0000
  /** C# `long`. */
  type Int64 = x: int | -0x8000_0000_0000_0000 <= x < 0x8000_0000_0000_0000
  /** C# `byte`. */
  type Byte = x: int | 0 <= x < 0x100

  /** 2^n, computed a byte at a time. */
  function Pow2(n: nat): (p: nat)
    ensures p >= 1
  {
    if n == 0 then 1
    else if n < 8 then 2 * Pow2(n - 1)
    else 0x100 * Pow2(n - 8)
  }

  /** The low 32 bits of `x`, read back as a signed C# `int`. */
  function Wrap32(x: int): (w: Int32)
    ensures (x - w) % TwoTo32 == 0
    ensures -TwoTo31 <= x < TwoTo31 ==> w == x
  {
    var m := x % TwoTo32;
    if m < TwoTo31 then m else m - TwoTo32
  }

  /** How far a number is from its own sign extension: x for x >= 0 and ~x
      for x < 0. It is 0 exactly for 0 and -1, and halving rounds it down. */
  function Size(x: int): nat
  {
    if x >= 0 then x else -x - 1
  }

  /** Bitwise or, one bit at a time from the least significant. */
  function Or(x: int, y: int): int
    decreases Size(x) + Size(y)
  {
    if Size(x) == 0 && Size(y) == 0 then
      (if x == -1 || y == -1 then -1 else 0)
    else
      2 * Or(x / 2, y / 2) + (if x % 2 == 1 || y % 2 == 1 then 1 else 0)
  }

  /** Bitwise and, one bit at a time from the least significant. */
  function And(x: int, y: int): int
    decreases Size(x) + Size(y)
  {
    if Size(x) == 0 && Size(y) == 0 then
      (if x == -1 && y == -1 then -1 else 0)
    else
      2 * And(x / 2, y / 2) + (if x % 2 == 1 && y % 2 == 1 then 1 else 0)
  }

  /** x shifted left by n bits with nothing lost: x doubled n times. */
  function Doubled(x: int, n: nat): int
    decreases n
  {
    if n == 0 then x else Doubled(2 * x, n - 1)
  }

  /** x shifted right by n bits with the sign bit copied in: x halved n
      times, each time rounding toward negative infinity (Dafny's `/` by 2
      rounds that way). It moves toward 0 or -1 and never changes sign. */
  function Halved(x: int, n: nat): (h: int)
    ensures x >= 0 ==> 0 <= h <= x
    ensures x < 0 ==> x <= h < 0
    decreases n
  {
    if n == 0 then x else Halved(x / 2, n - 1)
  }

  /** The number the low n bits of x spell. */
  function LowBits(x: int, n: nat): int
    decreases n
  {
    if n == 0 then 0 else 2 * LowBits(x / 2, n - 1) + x % 2
  }

  /** C# `x << count` on an int: the count is taken modulo 32 and the result
      truncated to 32 bits. */
  function ShiftLeft(x: Int32, count: int): Int32
  {
    Wrap32(Doubled(x, count % 32))
  }

  /** C# `x >> count` on an int: an arithmetic shift by the count modulo 32. */
  function ShiftRight(x: Int32, count: int): Int32
  {
    Halved(x, count % 32)
  }

  /** C# `x | y` on ints. */
  function BitOr(x: Int32, y: Int32): Int32
  {
    Wrap32(Or(x, y))
  }

  /** C# `x & y` on ints. */
  function BitAnd(x: Int32, y: Int32): Int32
  {
    Wrap32(And(x, y))
  }

  /** C# `(byte)x` in an unchecked context: the low 8 bits. */
  function ToByte(x: Int32): (b: Byte)
    ensures (x - b) % 0x100 == 0
  {
    x % 0x100
  }

  // ---------------------------------------------------------------------
  // Powers of two and division

  /** Each further bit doubles 2^n. */
  lemma {:induction false} Pow2Double(n: nat)
    ensures Pow2(n + 1) == 2 * Pow2(n)
  {
    if n >= 8 {
      Pow2Double(n - 8);
    }
  }

  lemma {:induction false} MulAtLeast(d: nat, k: int)
    requires k >= 1
    ensures d * k >= d
    decreases k
  {
    if k > 1 {
      MulAtLeast(d, k - 1);
      assert d * k == d * (k - 1) + d;
    }
  }

  /** Euclidean division is determined by its defining equation. */
  lemma DivModUnique(x: int, d: nat, q: int, r: int)
    requires d >= 1 && x == d * q + r && 0 <= r < d
    ensures x / d == q && x % d == r
  {
    var q', r' := x / d, x % d;
    assert d * (q - q') == r' - r;
    if q > q' {
      MulAtLeast(d, q - q');
    } else if q < q' {
      MulAtLeast(d, q' - q);
    }
  }

  lemma MulTwice(p: int, h: int)
    ensures (2 * p) * h == 2 * (p * h)
  {
  }

  /** A number already below d is its own remainder. */
  lemma ModSmall(x: int, d: int)
    requires 0 <= x < d
    ensures x % d == x
  {
  }

  /** The low n bits are a number below 2^n. */
  lemma {:induction false} LowBitsRange(x: int, n: nat)
    ensures 0 <= LowBits(x, n) < Pow2(n)
    decreases n
  {
    if n > 0 {
      LowBitsRange(x / 2, n - 1);
      Pow2Double(n - 1);
    }
  }

  /** x is its n-fold halving times 2^n plus its low n bits. */
  lemma {:induction false} SplitBits(x: int, n: nat)
    ensures x == Pow2(n) * Halved(x, n) + LowBits(x, n)
    decreases n
  {
    if n > 0 {
      SplitBits(x / 2, n - 1);
      Pow2Double(n - 1);
      var h, low, p := Halved(x / 2, n - 1), LowBits(x / 2, n - 1), Pow2(n - 1);
      MulTwice(p, h);
    }
  }

  /** Doubling n times multiplies by 2^n: `<<` before truncation. */
  lemma {:induction false} DoubledIs(x: int, n: nat, p: nat)
    requires p == Pow2(n)
    ensures Doubled(x, n) == x * p
    decreases n
  {
    if n > 0 {
      Pow2Double(n - 1);
      DoubledIs(2 * x, n - 1, Pow2(n - 1));
      MulTwice(x, Pow2(n - 1));
      assert (2 * x) * Pow2(n - 1) == x * (2 * Pow2(n - 1));
    }
  }

  /** Halving n times is division by 2^n, and the low n bits are the
      remainder: `>>` is floor division, for negative numbers too. */
  lemma DivPow2(x: int, n: nat, p: nat)
    requires p == Pow2(n)
    ensures x / p == Halved(x, n) && x % p == LowBits(x, n)
  {
    SplitBits(x, n);
    LowBitsRange(x, n);
    DivModUnique(x, p, Halved(x, n), LowBits(x, n));
  }

  // ---------------------------------------------------------------------
  // Bitwise facts

  lemma {:induction false} OrZero(x: int)
    ensures Or(x, 0) == x
    decreases Size(x)
  {
    if Size(x) != 0 {
      OrZero(x / 2);
    }
  }

  lemma {:induction false} AndZero(x: int)
    ensures And(x, 0) == 0
    decreases Size(x)
  {
    if Size(x) != 0 {
      AndZero(x / 2);
    }
  }

  /** Or-ing a number below 2^n into a number whose low n bits are clear adds
      the two: they have no bit in common. */
  lemma {:induction false} OrLowBits(x: int, y: int, n: nat)
    requires LowBits(x, n) == 0 && 0 <= y < Pow2(n)
    ensures Or(x, y) == x + y
    decreases n
  {
    if n == 0 {
      OrZero(x);
    } else {
      Pow2Double(n - 1);
      LowBitsRange(x / 2, n - 1);
      if Size(x) != 0 || Size(y) != 0 {
        OrLowBits(x / 2, y / 2, n - 1);
      }
    }
  }

  /** And-ing with 2^n - 1 keeps the low n bits. */
  lemma {:induction false} AndLowBits(x: int, n: nat)
    ensures And(x, Pow2(n) - 1) == LowBits(x, n)
    decreases n
  {
    if n == 0 {
      AndZero(x);
    } else {
      Pow2Double(n - 1);
      var m := Pow2(n - 1);
      assert (2 * m - 1) / 2 == m - 1 && (2 * m - 1) % 2 == 1;
      AndLowBits(x / 2, n - 1);
    }
  }

  /** Or-ing a number below 2^n into a multiple of 2^n adds it. This is what
      makes a packed color a sum of lanes. */
  lemma OrDisjoint(x: int, y: int, n: nat, p: nat)
    requires p == Pow2(n) && x % p == 0 && 0 <= y < p
    ensures Or(x, y) == x + y
  {
    DivPow2(x, n, p);
    OrLowBits(x, y, n);
  }

  /** And-ing with 2^n - 1 is reduction modulo 2^n, for negative numbers too. */
  lemma AndLowMask(x: int, n: nat, p: nat)
    requires p == Pow2(n)
    ensures And(x, p - 1) == x % p
  {
    AndLowBits(x, n);
    DivPow2(x, n, p);
  }

  /** `& 0xff` is reduction modulo 256. */
  lemma AndByte(x: int)
    ensures And(x, 0xff) == x % 0x100
  {
    AndLowMask(x, 8, 0x100);
  }
}
