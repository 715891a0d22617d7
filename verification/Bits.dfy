/** Bytes, and C's unsigned bit operations written as arithmetic on naturals. */
module Bits {

  type Byte = x: int | 0 <= x < 256
  type Bytes = seq<Byte>

  const TWO_31: int := 0x8000_0000
  const TWO_32: int := 0x1_0000_0000
  const TWO_63: int := 0x8000_0000_0000_0000
  const TWO_64: int := 0x1_0000_0000_0000_0000
  const SIZE_MAX: int := TWO_64 - 1

  /** 1 << n, before any truncation. */
  function Pow2(n: nat): (p: nat)
    ensures p >= 1
  {
    if n == 0 then 1 else 2 * Pow2(n - 1)
  }

  /** x << n on a 32-bit unsigned integer. */
  function Shl32(x: nat, n: nat): (r: nat)
    ensures r < TWO_32
    decreases n
  {
    if n == 0 then x % TWO_32 else Shl32(2 * x, n - 1)
  }

  lemma {:induction false} Shl32IsProduct(x: nat, n: nat)
    ensures Shl32(x, n) == (x * Pow2(n)) % TWO_32
    decreases n
  {
    if n > 0 {
      Shl32IsProduct(2 * x, n - 1);
      Doubled(x, Pow2(n - 1));
    }
  }

  lemma Product(a: nat, c: nat, b: nat)
    requires a <= c
    ensures a * b <= c * b
  {
    assert (c - a) * b >= 0;
  }

  lemma Doubled(x: nat, p: nat)
    ensures (2 * x) * p == x * (2 * p)
  {
  }

  /** Bitwise OR. */
  function Or(a: nat, b: nat): nat
    decreases a + b
  {
    if a == 0 then b
    else if b == 0 then a
    else (if a % 2 == 1 || b % 2 == 1 then 1 else 0) + 2 * Or(a / 2, b / 2)
  }

  lemma {:induction false} PowerSum(m: nat, n: nat)
    ensures Pow2(m + n) == Pow2(m) * Pow2(n)
  {
    if m > 0 {
      PowerSum(m - 1, n);
    }
  }

  /** ORing a value into bits that are all zero adds it. */
  lemma {:induction false} OrDisjoint(a: nat, b: nat, k: nat)
    requires a < Pow2(k)
    ensures Or(a, b * Pow2(k)) == a + b * Pow2(k)
  {
    if a != 0 && b != 0 {
      var high := b * Pow2(k - 1);
      assert b * Pow2(k) == 2 * high;
      assert high > 0 by {
        Positive(b, Pow2(k - 1));
      }
      OrDisjoint(a / 2, b, k - 1);
    }
  }

  lemma Positive(a: nat, b: nat)
    requires a > 0 && b > 0
    ensures a * b > 0
  {
  }

  /** Conversion of an unsigned value to int32_t and to int64_t. */
  function ToInt32(v: int): (w: int)
    ensures -TWO_31 <= w < TWO_31
  {
    var low := v % TWO_32;
    if low < TWO_31 then low else low - TWO_32
  }

  function ToInt64(v: int): (w: int)
    ensures -TWO_63 <= w < TWO_63
  {
    var low := v % TWO_64;
    if low < TWO_63 then low else low - TWO_64
  }

  lemma {:induction false} OrBound(a: nat, b: nat, k: nat)
    requires a < Pow2(k) && b < Pow2(k)
    ensures Or(a, b) < Pow2(k)
    decreases a + b
  {
    if a != 0 && b != 0 {
      OrBound(a / 2, b / 2, k - 1);
    }
  }

  lemma OrRange(a: nat, b: nat)
    ensures a < TWO_32 && b < TWO_32 ==> Or(a, b) < TWO_32
  {
    if a < TWO_32 && b < TWO_32 {
      Powers();
      OrBound(a, b, 32);
    }
  }

  lemma SmallPowers()
    ensures Pow2(4) == 16 && Pow2(6) == 64 && Pow2(7) == 128
  {
    assert Pow2(2) == 4;
    assert Pow2(4) == 16;
    assert Pow2(6) == 64;
  }

  lemma Powers()
    ensures Pow2(7) == 128 && Pow2(14) == 0x4000 && Pow2(21) == 0x20_0000 && Pow2(28) == 0x1000_0000
    ensures Pow2(32) == TWO_32 && Pow2(35) == 8 * TWO_32 && Pow2(64) == TWO_64 && Pow2(70) == 64 * TWO_64
  {
    hide Pow2;
    SmallPowers();
    PowerSum(7, 7);
    PowerSum(14, 7);
    PowerSum(21, 7);
    PowerSum(28, 4);
    PowerSum(28, 7);
    PowerSum(32, 32);
    PowerSum(64, 6);
  }
}
