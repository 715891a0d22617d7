/** Every scalar, bytes and string encoder is undone by the matching decoder. */
module Scalars {
  import opened Bits
  import opened Varint
  import opened Schema
  import opened Wrappers
  import opened DecodeSpec
  import opened EncodeSpec

  lemma UnZigZagZigZag(n: int)
    ensures UnZigZag(ZigZag(n)) == n
    ensures -TWO_63 <= n < TWO_63 <==> ZigZag(n) < TWO_64
  {
  }

  /** Zigzag is onto: no unsigned number is left over. */
  lemma ZigZagUnZigZag(v: nat)
    ensures ZigZag(UnZigZag(v)) == v
  {
  }

  lemma WrapInt32(n: int)
    requires -TWO_31 <= n < TWO_31
    ensures ToInt32(n % TWO_64) == n
  {
    if n < 0 {
      assert n % TWO_64 == n + TWO_64;
      LowHalf(n);
    } else {
      assert n % TWO_64 == n;
    }
  }

  lemma WrapInt64(n: int)
    requires -TWO_63 <= n < TWO_63
    ensures ToInt64(n % TWO_64) == n
  {
    if n < 0 {
      assert n % TWO_64 == n + TWO_64;
    } else {
      assert n % TWO_64 == n;
    }
  }

  predicate VarintType(f: Field)
  {
    f.lt in {VARINT, UVARINT, SVARINT} && IntegerSize(f.dataSize)
  }

  /** The wire form of a value that fits its struct member denotes that value again. */
  lemma WireIntegerInverse(f: Field, n: int)
    requires VarintType(f) && InRange(f, n)
    ensures WireInteger(f, n) < TWO_64 && Integer(f, WireInteger(f, n)) == n
  {
    if f.lt == SVARINT {
      UnZigZagZigZag(n);
    } else if f.lt == UVARINT {
      assert n % TWO_64 == n;
    } else if f.dataSize == 8 {
      WrapInt64(n);
    } else {
      WrapInt32(n);
    }
  }

  lemma NumberRoundTrip(f: Field, n: int, t: Bytes)
    requires VarintType(f) && InRange(f, n)
    ensures EncNumber(f, n).Some?
    ensures DecNumber(f, EncNumber(f, n).value + t) == Ok(Num(n), |EncNumber(f, n).value|)
  {
    hide DecVarint64, Integer, WireInteger, InRange;
    WireIntegerInverse(f, n);
    RoundTrip64(WireInteger(f, n), t);
  }

  function Pow256(n: nat): (p: nat)
    ensures p >= 1
  {
    if n == 0 then 1 else 256 * Pow256(n - 1)
  }

  lemma {:induction false} LittleRoundTrip(v: nat, size: nat)
    requires v < Pow256(size)
    ensures Little(LittleBytes(v, size)) == v
  {
    if size > 0 {
      LittleRoundTrip(v / 256, size - 1);
    }
  }

  lemma WordSizes()
    ensures Pow256(4) == TWO_32 && Pow256(8) == TWO_64
  {
    assert Pow256(2) == 0x1_0000;
    assert Pow256(4) == TWO_32;
    assert Pow256(6) == 0x1_0000_0000_0000;
  }

  lemma FixedRoundTrip(v: nat, size: nat, t: Bytes)
    requires size in {4, 8} && v < Pow256(size)
    ensures DecFixed(size, LittleBytes(v, size) + t) == Ok(Num(v), size)
  {
    LittleRoundTrip(v, size);
    assert (LittleBytes(v, size) + t)[..size] == LittleBytes(v, size);
  }

  lemma {:induction false} StringLengthAll(s: Bytes, max: nat)
    requires 0 !in s && |s| <= max
    ensures StringLength(s, max) == |s|
  {
    if s != [] {
      StringLengthAll(s[1..], max - 1);
    }
  }

  lemma BlobRoundTrip(f: Field, bs: Bytes, t: Bytes)
    requires Fits(f, |bs|) && |bs| < TWO_32
    requires f.lt == FIXED_LENGTH_BYTES ==> |bs| == f.dataSize
    ensures DecBlob(f, Prefixed(bs) + t) == Ok(Blob(bs), |Prefixed(bs)|)
  {
    hide DecVarint32;
    RoundTrip32(|bs|, bs + t);
    var n := |EncVarint(|bs|)|;
    assert Prefixed(bs) + t == EncVarint(|bs|) + (bs + t);
    assert (Prefixed(bs) + t)[n..n + |bs|] == bs;
    if f.lt == FIXED_LENGTH_BYTES && bs == [] {
      assert Zeros(0) == [];
    }
  }

  /** A number the member can hold. */
  predicate GoodNumber(f: Field, n: int)
  {
    if f.lt == BOOL then n == 0 || n == 1
    else if f.lt == FIXED32 then 0 <= n < TWO_32
    else if f.lt == FIXED64 then 0 <= n < TWO_64
    else VarintType(f) && InRange(f, n)
  }

  /** A value the descriptor allows: numbers in range, strings NUL-terminated inside their buffer,
      lengths of 32 bits. */
  predicate GoodBasic(f: Field, v: Value)
  {
    match v
    case Num(n) => GoodNumber(f, n)
    case Blob(bs) =>
      && Fits(f, |bs|) && |bs| < TWO_32
      && (f.lt == STRING ==> 0 !in bs)
      && (f.lt == FIXED_LENGTH_BYTES ==> |bs| == f.dataSize)
    case At(a, n) => f.at == PTR && 0 < a < TWO_64 && GoodNumber(f, n)
    case Null => f.at == PTR && f.lt in {BYTES, STRING}
    case Msg(_) => false
  }

  /** A null pointer comes back as a pointer to an empty string, and a number behind a pointer at an
      address of the allocator's choosing. */
  function NormBasic(v: Value): Value
  {
    if v.Null? then Blob([]) else if v.At? then Num(v.n) else v
  }

  lemma BlobEncoded(f: Field, bs: Bytes)
    requires GoodBasic(f, Blob(bs))
    ensures f.lt in {BYTES, STRING, FIXED_LENGTH_BYTES}
    ensures EncBlob(f, bs) == Some(Prefixed(bs))
  {
    if f.lt == STRING {
      var max := if f.at == STATIC then f.dataSize else |bs|;
      StringLengthAll(bs, max);
      assert bs[..|bs|] == bs;
    }
  }

  lemma BoolRoundTrip(f: Field, n: int, t: Bytes)
    requires f.lt == BOOL && (n == 0 || n == 1)
    ensures DecBasic(f, EncVarint(n) + t) == Ok(Num(n), |EncVarint(n)|)
  {
    hide DecVarint32;
    RoundTrip32(n, t);
  }

  lemma FixedFieldRoundTrip(f: Field, n: int, t: Bytes)
    requires GoodBasic(f, Num(n)) && f.lt in {FIXED32, FIXED64}
    ensures EncNumber(f, n).Some?
    ensures DecBasic(f, EncNumber(f, n).value + t) == Ok(Num(n), |EncNumber(f, n).value|)
  {
    hide LittleBytes, DecFixed, Pow256;
    WordSizes();
    FixedRoundTrip(n, if f.lt == FIXED32 then 4 else 8, t);
  }

  lemma GoodNumberRoundTrip(f: Field, n: int, t: Bytes)
    requires GoodNumber(f, n) && Packable(f.lt)
    ensures EncNumber(f, n).Some? && |EncNumber(f, n).value| >= 1
    ensures DecBasic(f, EncNumber(f, n).value + t) == Ok(Num(n), |EncNumber(f, n).value|)
  {
    hide DecNumber, DecFixed, InRange;
    if f.lt == BOOL {
      BoolRoundTrip(f, n, t);
    } else if f.lt in {FIXED32, FIXED64} {
      FixedFieldRoundTrip(f, n, t);
    } else {
      NumberRoundTrip(f, n, t);
    }
  }

  lemma {:induction false} ZeroBytesSmall(x: nat, n: nat)
    requires x < Pow256(n)
    ensures ZeroBytes(x, n) <==> x == 0
  {
    if n > 0 {
      ZeroBytesSmall(x / 256, n - 1);
    }
  }

  /** What the loop over the bytes of a number finds out. */
  lemma {:induction false} ZeroBytesModulo(x: nat, n: nat)
    ensures ZeroBytes(x, n) <==> x % Pow256(n) == 0
  {
    if n > 0 {
      ZeroBytesModulo(x / 256, n - 1);
      DigitFirst(x, Pow256(n - 1));
    }
  }

  lemma DigitFirst(x: nat, p: nat)
    requires p >= 1
    ensures x % (256 * p) == x % 256 + 256 * (x / 256 % p)
  {
    var q, r := x / 256 / p, x / 256 % p;
    var low := x % 256 + 256 * r;
    assert x / 256 == q * p + r;
    assert 256 * (q * p) == q * (256 * p);
    assert x == q * (256 * p) + low;
    assert low < 256 * p by {
      assert r + 1 <= p;
    }
    RemainderIs(x, 256 * p, q, low);
  }

  lemma RemainderIs(x: nat, m: nat, q: nat, r: nat)
    requires m > 0 && x == q * m + r && r < m
    ensures x % m == r && x / m == q
  {
    var d := x / m - q;
    assert x == x / m * m + x % m;
    assert d * m == r - x % m;
  }

  /** Only the low bytes count. */
  lemma {:induction false} ZeroBytesLow(x: nat, k: nat, n: nat)
    ensures ZeroBytes(x + k * Pow256(n), n) <==> ZeroBytes(x, n)
  {
    if n > 0 {
      var y := k * Pow256(n - 1);
      assert k * Pow256(n) == 256 * y;
      ZeroBytesLow(x / 256, k, n - 1);
      assert (x + 256 * y) / 256 == x / 256 + y && (x + 256 * y) % 256 == x % 256;
    }
  }

  /** Comparing the bytes of a number with zero tells whether it is zero. */
  lemma ZeroNumber(f: Field, n: int)
    requires GoodNumber(f, n) && (f.lt == BOOL ==> f.dataSize == 1)
    requires (f.lt == FIXED32 ==> f.dataSize == 4) && (f.lt == FIXED64 ==> f.dataSize == 8)
    ensures ZeroBytes(n % TWO_64, f.dataSize) <==> n == 0
  {
    hide ZeroBytes, Pow256;
    ByteSizes();
    var size := f.dataSize;
    if n >= 0 {
      assert n % TWO_64 == n;
      ZeroBytesSmall(n, size);
    } else {
      assert n % TWO_64 == n + TWO_64;
      ZeroBytesSmall(n + Pow256(size), size);
      var k := if size == 1 then 0x100_0000_0000_0000 else if size == 2 then 0x1_0000_0000_0000 else if size == 4 then TWO_32 else 1;
      ZeroBytesLow(n + Pow256(size), k - 1, size);
      assert n + Pow256(size) + (k - 1) * Pow256(size) == n + TWO_64;
    }
  }

  lemma ByteSizes()
    ensures Pow256(1) == 0x100 && Pow256(2) == 0x1_0000 && Pow256(4) == TWO_32 && Pow256(8) == TWO_64
  {
    WordSizes();
  }

  /** A pointer that is not null may have zeros in its low bytes, unless all eight are compared. */
  lemma EightBytes(a: nat)
    requires 0 < a < TWO_64
    ensures !ZeroBytes(a, 8)
  {
    hide ZeroBytes, Pow256;
    WordSizes();
    ZeroBytesSmall(a, 8);
  }

  /** The encoder accepts every good value and the decoder reads it back, leaving any suffix. */
  lemma BasicRoundTrip(f: Field, v: Value, t: Bytes)
    requires f.lt != SUBMESSAGE && GoodBasic(f, v)
    ensures EncBasic(f, v).Some? && |EncBasic(f, v).value| >= 1
    ensures DecBasic(f, EncBasic(f, v).value + t) == Ok(NormBasic(v), |EncBasic(f, v).value|)
  {
    hide DecNumber, DecBlob, DecFixed, EncBlob, InRange, Fits;
    match v
    case Num(n) => GoodNumberRoundTrip(f, n, t);
    case At(_, n) => GoodNumberRoundTrip(f, n, t);
    case Blob(bs) =>
      BlobEncoded(f, bs);
      BlobRoundTrip(f, bs, t);
    case Null =>
      NullBlob(f, t);
  }

  lemma NullBlob(f: Field, t: Bytes)
    requires GoodBasic(f, Null)
    ensures DecBlob(f, Prefixed([]) + t) == Ok(Blob([]), |Prefixed([])|)
  {
    BlobRoundTrip(f, [], t);
  }
}
