/** What the numbers and payloads of single values are, bit by bit and by the size of their member. */
module WireNumbers {
  import opened Bits
  import opened Varint
  import opened Schema
  import opened Wrappers
  import opened DecodeSpec
  import opened EncodeSpec
  import opened Scalars

  // ----- Varints, bit by bit -----

  /** Every byte but the last has its top bit set, and the rest are seven bits of the number each, the
      lowest first. */
  lemma {:induction false} VarintBytes(v: nat, i: nat)
    requires i < |EncVarint(v)|
    ensures EncVarint(v)[i] >= 128 <==> i < |EncVarint(v)| - 1
    ensures EncVarint(v)[i] % 128 == v / Pow2(7 * i) % 128
  {
    if i > 0 {
      VarintBytes(v / 128, i - 1);
      PowerSum(7, 7 * (i - 1));
      assert Pow2(7) == 128;
      Quotients(v, 128, Pow2(7 * (i - 1)));
    }
  }

  lemma Quotients(v: nat, a: nat, b: nat)
    requires a > 0 && b > 0
    ensures a * b > 0 && v / (a * b) == v / a / b
  {
    var q, r := v / a / b, v / a % b;
    assert v == a * (v / a) + v % a && v / a == q * b + r;
    assert a * (q * b) == q * (a * b);
    assert a * r + v % a < a * b by {
      assert a * (r + 1) <= a * b;
    }
    assert v == q * (a * b) + (a * r + v % a);
    RemainderIs(v, a * b, q, a * r + v % a);
  }

  /** The number the groups of any bytes stand for, minimal or not. */
  lemma {:induction false} GroupBits(s: Bytes, i: nat)
    requires i < |s|
    ensures Groups(s) / Pow2(7 * i) % 128 == s[i] % 128
    decreases s
  {
    LowGroup(s[0] % 128, Groups(s[1..]));
    hide Groups, Pow2;
    if i > 0 {
      GroupBits(s[1..], i - 1);
      SevenBits(i - 1);
      Quotients(Groups(s), 128, Pow2(7 * (i - 1)));
    } else {
      NoBits();
    }
  }

  lemma LowGroup(b: nat, h: nat)
    requires b < 128
    ensures (b + 128 * h) / 128 == h && (b + 128 * h) % 128 == b
  {
  }

  lemma SevenBits(i: nat)
    ensures Pow2(7 * (i + 1)) == 128 * Pow2(7 * i)
  {
    PowerSum(7, 7 * i);
    assert Pow2(7) == 128;
  }

  lemma NoBits()
    ensures Pow2(0) == 1
  {
  }

  /** pb_decode_varint takes up to ten bytes, the last being the first below 128, and what they stand for
      modulo 2^64. */
  lemma LongReader(s: Bytes, n: nat)
    ensures DecVarint64(s).Ok? && DecVarint64(s).n == n <==>
              1 <= n <= 10 && n <= |s| && s[n - 1] < 128 && forall i :: 0 <= i < n - 1 ==> s[i] >= 128
    ensures DecVarint64(s).Ok? && DecVarint64(s).n == n ==> DecVarint64(s).v == Groups(s[..n]) % 0x1_0000_0000_0000_0000
  {
    EndsThere(s, n, 10);
  }

  lemma {:induction false} EndsThere(s: Bytes, n: nat, max: nat)
    ensures n > 0 && VarintLen(s, max) == n <==>
              1 <= n <= max && n <= |s| && s[n - 1] < 128 && forall i :: 0 <= i < n - 1 ==> s[i] >= 128
    decreases max
  {
    if max > 0 && s != [] && s[0] >= 128 && n > 1 {
      EndsThere(s[1..], n - 1, max - 1);
      assert n <= |s| ==> s[1..][n - 2] == s[n - 1];
      assert forall i :: 1 <= i < |s| ==> s[1..][i - 1] == s[i];
    }
  }

  // ----- Long forms in the 32-bit reader -----

  /** Byte `i`, from the sixth on, adds nothing to the value: its seven bits are zero, or they are the sign
      of a negative 32-bit number in a ten-byte varint. */
  predicate Padding(b: Byte, i: nat, low: nat)
  {
    b % 128 == 0 || (low >= 0x8000_0000 && b == if i < 9 then 0xFF else 0x01)
  }

  lemma PaddingTurn(s: Bytes, i: nat, low: nat)
    requires 5 <= i < 36 && s != [] && low < TWO_32
    ensures Varint32Loop(s, 7 * i, low) ==
            if !Padding(s[0], i, low) then Err
            else if s[0] < 128 then Ok(low, 1)
            else match Varint32Loop(s[1..], 7 * (i + 1), low) case Ok(v, n) => Ok(v, n + 1) case Err => Err
  {
    hide Or, Shl32;
    assert low / TWO_31 == 0 <==> low < TWO_31;
  }

  lemma {:induction false} PaddingOnly(s: Bytes, i: nat, low: nat, n: nat)
    requires 5 <= i && VarintLen(s, n) == n > 0 && i + n <= 36 && low < TWO_32
    ensures Varint32Loop(s, 7 * i, low) == if forall j :: 0 <= j < n ==> Padding(s[j], i + j, low) then Ok(low, n) else Err
    decreases n
  {
    hide Varint32Loop, Padding;
    PaddingTurn(s, i, low);
    if n > 1 {
      PaddingOnly(s[1..], i + 1, low, n - 1);
      if forall j :: 0 <= j < n ==> Padding(s[j], i + j, low) {
        forall j | 0 <= j < n - 1
          ensures Padding(s[1..][j], i + 1 + j, low)
        {
          assert Padding(s[j + 1], i + (j + 1), low);
        }
      } else if Padding(s[0], i, low) {
        var j :| 0 <= j < n && !Padding(s[j], i + j, low);
        assert !Padding(s[1..][j - 1], i + 1 + (j - 1), low);
      }
    }
  }

  function Seven(b: nat): nat
  {
    b % 128
  }

  lemma GroupsFive(s: Bytes)
    requires |s| >= 5
    ensures Groups(s[..5]) == Seven(s[0]) + Seven(s[1]) * 0x80 + Seven(s[2]) * 0x4000 + Seven(s[3]) * 0x20_0000
                              + Seven(s[4]) * 0x1000_0000
  {
    var g := s[..5];
    assert g[1..][1..] == g[2..] && g[2..][1..] == g[3..] && g[3..][1..] == g[4..] && g[4..][1..] == [];
    assert Groups(g[4..]) == Seven(g[4]);
    assert Groups(g[3..]) == Seven(g[3]) + 128 * Groups(g[4..]);
    assert Groups(g[2..]) == Seven(g[2]) + 128 * Groups(g[3..]);
    assert Groups(g[1..]) == Seven(g[1]) + 128 * Groups(g[2..]);
  }

  lemma FirstFive(s: Bytes)
    requires |s| > 5 && forall i :: 0 <= i < 5 ==> s[i] >= 128
    ensures var low := Groups(s[..5]) % TWO_32;
            DecVarint32(s) == match Varint32Loop(s[5..], 35, low) case Ok(v, n) => Ok(v, n + 5) case Err => Err
  {
    hide Varint32Loop, Groups;
    var r1: nat := Seven(s[0]);
    var r2 := r1 + Seven(s[1]) * 0x80;
    var r3 := r2 + Seven(s[2]) * 0x4000;
    var r4 := r3 + Seven(s[3]) * 0x20_0000;
    assert s[1..][1..] == s[2..] && s[2..][1..] == s[3..] && s[3..][1..] == s[4..] && s[4..][1..] == s[5..];
    Turn32(s[1..], 1, r1, 0x80);
    Turn32(s[2..], 2, r2, 0x4000);
    Turn32(s[3..], 3, r3, 0x20_0000);
    Turn32(s[4..], 4, r4, 0x1000_0000);
    GroupsFive(s);
    FifthByte(r4, Seven(s[4]));
  }

  /** pb_decode_varint32 takes a varint of more than five bytes exactly when all bytes from the sixth on
      are padding, and yields what the first five stand for modulo 2^32. */
  lemma LongForm32(s: Bytes, n: nat)
    requires VarintLen(s, 36) == n > 5
    ensures var low := Groups(s[..5]) % 0x1_0000_0000;
            DecVarint32(s) == if forall i :: 5 <= i < n ==> Padding(s[i], i, low) then Ok(low, n) else Err
  {
    hide Varint32Loop, DecVarint32, Groups;
    var low := Groups(s[..5]) % TWO_32;
    FirstFive(s);
    DropFive(s, n);
    PaddingOnly(s[5..], 5, low, n - 5);
    assert forall j :: 0 <= j < n - 5 ==> s[5..][j] == s[j + 5];
    if forall j :: 0 <= j < n - 5 ==> Padding(s[5..][j], 5 + j, low) {
      forall i | 5 <= i < n
        ensures Padding(s[i], i, low)
      {
        assert Padding(s[5..][i - 5], 5 + (i - 5), low);
      }
    }
  }

  lemma DropFive(s: Bytes, n: nat)
    requires VarintLen(s, 36) == n > 5
    ensures VarintLen(s[5..], n - 5) == n - 5
  {
    EndsThere(s, n, 36);
    EndsThere(s[5..], n - 5, n - 5);
  }

  // ----- Words -----

  /** The lowest byte first, in both directions. */
  lemma {:induction false} WordBytes(v: nat, size: nat, i: nat)
    requires i < size
    ensures LittleBytes(v, size)[i] == v / Pow256(i) % 256
    decreases size
  {
    if i > 0 {
      WordBytes(v / 256, size - 1, i - 1);
      Quotients(v, 256, Pow256(i - 1));
    } else {
      assert Pow256(0) == 1;
    }
  }

  lemma {:induction false} BytesOfWord(s: Bytes, i: nat)
    requires i < |s|
    ensures Little(s) / Pow256(i) % 256 == s[i]
    decreases s
  {
    LowByte(s[0], Little(s[1..]));
    hide Little;
    if i > 0 {
      BytesOfWord(s[1..], i - 1);
      Quotients(Little(s), 256, Pow256(i - 1));
    } else {
      assert Pow256(0) == 1;
    }
  }

  lemma LowByte(b: Byte, h: nat)
    ensures (b + 256 * h) / 256 == h && (b + 256 * h) % 256 == b
  {
  }

  // ----- Zigzag -----

  /** Zigzag counts 0, -1, 1, -2, 2 and so on. */
  lemma ZigZagCounts(n: int)
    requires n >= 0
    ensures ZigZag(0) == 0 && ZigZag(-n - 1) == ZigZag(n) + 1 && ZigZag(n + 1) == ZigZag(-n - 1) + 1
  {
  }

  // ----- What number a varint is, for each type and width -----

  /** The least and the greatest number of a signed member. */
  predicate SignedRange(size: nat, n: int)
  {
    match size
    case 1 => -0x80 <= n < 0x80
    case 2 => -0x8000 <= n < 0x8000
    case 4 => -0x8000_0000 <= n < 0x8000_0000
    case 8 => -0x8000_0000_0000_0000 <= n < 0x8000_0000_0000_0000
    case _ => false
  }

  predicate UnsignedRange(size: nat, n: int)
  {
    match size
    case 1 => 0 <= n < 0x100
    case 2 => 0 <= n < 0x1_0000
    case 4 => 0 <= n < 0x1_0000_0000
    case 8 => 0 <= n < 0x1_0000_0000_0000_0000
    case _ => false
  }

  /** `n` is what a field of this type and width makes of the unsigned 64-bit number `v`: plain signed
      fields only look at as many low bits as an int has, or at all 64 if they have as many themselves. */
  predicate Means(f: Field, v: nat, n: int)
  {
    match f.lt
    case VARINT => SignedRange(f.dataSize, n) && (v - n) % (if f.dataSize == 8 then 0x1_0000_0000_0000_0000 else 0x1_0000_0000) == 0
    case UVARINT => UnsignedRange(f.dataSize, n) && v == n
    case SVARINT => SignedRange(f.dataSize, n) && v == if n >= 0 then n + n else -n - n - 1
    case _ => false
  }

  /** A varint field accepts exactly the varints that mean a number of its member, and yields that number. */
  lemma NumberMeans(f: Field, s: Bytes, n: int, m: nat)
    requires f.lt in {VARINT, UVARINT, SVARINT}
    ensures DecNumber(f, s) == Ok(Num(n), m) <==> exists v :: DecVarint64(s) == Ok(v, m) && Means(f, v, n)
    ensures DecNumber(f, s).Ok? ==> DecNumber(f, s).v.Num?
  {
    hide DecVarint64;
    var d := DecVarint64(s);
    if d.Ok? {
      IntegerMeans(f, d.v, n);
      assert DecNumber(f, s) == Ok(Num(n), m) <==> d.n == m && Means(f, d.v, n);
    }
  }

  lemma IntegerMeans(f: Field, v: nat, n: int)
    requires f.lt in {VARINT, UVARINT, SVARINT} && v < TWO_64
    ensures Means(f, v, n) <==> InRange(f, n) && Integer(f, v) == n
  {
    if f.lt == VARINT {
      if f.dataSize == 8 {
        Congruent(v, n, TWO_64);
      } else {
        Congruent(v, n, TWO_32);
      }
    }
  }

  /** Two's complement is the only number of the range with the same low bits. */
  lemma Congruent(v: nat, n: int, m: int)
    requires m in {TWO_32, TWO_64}
    ensures (v - n) % m == 0 && -m / 2 <= n < m / 2 <==> n == if v % m < m / 2 then v % m else v % m - m
  {
  }

  /** In particular the five-byte form in which other programs write a negative int32. */
  lemma FiveByteNegative(f: Field, n: int, t: Bytes)
    requires f.lt == VARINT && f.dataSize in {1, 2, 4} && n < 0 && SignedRange(f.dataSize, n)
    ensures DecNumber(f, EncVarint(n + 0x1_0000_0000) + t) == Ok(Num(n), 5)
  {
    var v := n + TWO_32;
    RoundTrip64(v, t);
    EncSizes(v);
    FiveBytes(v);
    assert Means(f, v, n) by {
      assert v - n == TWO_32;
    }
    NumberMeans(f, EncVarint(v) + t, n, 5);
  }

  lemma FiveBytes(v: nat)
    requires 0x1000_0000 <= v < TWO_32
    ensures |EncVarint(v)| == 5
  {
    var a := v / 128;
    var b := a / 128;
    var c := b / 128;
    assert c / 128 < 128 && |EncVarint(c / 128)| == 1;
    assert |EncVarint(c)| == 2 && |EncVarint(b)| == 3 && |EncVarint(a)| == 4;
  }

  /** The number a field is written as: itself modulo 2^64, so that a field of any width reads it. */
  lemma NumberWritten(f: Field, n: int)
    requires f.lt in {BOOL, VARINT, UVARINT, SVARINT} && IntegerSize(f.dataSize) && GoodNumber(f, n)
    ensures EncNumber(f, n).Some?
    ensures var d := DecVarint64(EncNumber(f, n).value);
            d.Ok? && d.n == |EncNumber(f, n).value|
            && if f.lt == BOOL then d.v == n else Means(f.(dataSize := 8), d.v, n)
  {
    hide DecVarint64, EncVarint;
    var e := EncVarint(WireInteger(f, n));
    assert e + [] == e;
    RoundTrip64(WireInteger(f, n), []);
  }

  /** A bool is true for any number but zero. */
  lemma BoolMeans(f: Field, s: Bytes)
    requires f.lt == BOOL
    ensures DecBasic(f, s) ==
            match DecVarint32(s)
            case Ok(0, n) => Ok(Num(0), n)
            case Ok(_, n) => Ok(Num(1), n)
            case Err => Err
  {
  }

  /** A word is taken as it stands. */
  lemma WordMeans(f: Field, s: Bytes)
    requires f.lt in {FIXED32, FIXED64}
    ensures var size := if f.lt == FIXED32 then 4 else 8;
            DecBasic(f, s) == if |s| >= size then Ok(Num(Little(s[..size])), size) else Err
  {
  }

  // ----- Bytes and strings -----

  /** The member has room for a payload of `size` bytes: the bytes type puts a count of four bytes in
      front, strings a terminator behind, and a fixed length has to match unless nothing is sent. */
  predicate Accepts(f: Field, size: nat)
  {
    match f.lt
    case BYTES => f.at == STATIC ==> size + 4 <= f.dataSize
    case STRING => size + 1 < 0x1_0000_0000 && (f.at == STATIC ==> size + 1 <= f.dataSize)
    case FIXED_LENGTH_BYTES => size == f.dataSize || size == 0
    case _ => false
  }

  /** A payload is accepted exactly when it is there and the member has room; the member then holds it. */
  lemma PayloadMeans(f: Field, bs: Bytes, t: Bytes)
    requires f.lt in {BYTES, STRING, FIXED_LENGTH_BYTES} && |bs| < TWO_32
    ensures DecBasic(f, Prefixed(bs) + t) ==
            if !Accepts(f, |bs|) then Err
            else Ok(Blob(if f.lt == FIXED_LENGTH_BYTES && bs == [] then seq(f.dataSize, _ => 0) else bs), |Prefixed(bs)|)
  {
    hide DecVarint32, EncVarint;
    RoundTrip32(|bs|, bs + t);
    var n := |EncVarint(|bs|)|;
    assert Prefixed(bs) + t == EncVarint(|bs|) + (bs + t);
    assert (Prefixed(bs) + t)[n..n + |bs|] == bs;
  }

  /** How much of a buffer is written as a string: up to the first zero byte, the bound or the end. */
  lemma {:induction false} StringEnds(s: Bytes, max: nat, n: nat)
    ensures StringLength(s, max) == n <==>
              n <= |s| && n <= max && 0 !in s[..n] && (n == |s| || n == max || s[n] == 0)
    decreases max
  {
    if max > 0 && s != [] && s[0] != 0 && n > 0 {
      StringEnds(s[1..], max - 1, n - 1);
      if n <= |s| {
        assert s[..n] == [s[0]] + s[1..][..n - 1];
      }
    } else if n > 0 && n <= |s| {
      assert s[..n][0] == s[0];
    }
  }

  /** Bytes, strings and fixed lengths are written behind their length; only what exceeds the member is
      refused. */
  lemma PayloadWritten(f: Field, bs: Bytes)
    requires f.lt in {BYTES, STRING, FIXED_LENGTH_BYTES}
    ensures EncBasic(f, Blob(bs)) ==
            if f.lt == BYTES && f.at == STATIC && |bs| + 4 > f.dataSize then None
            else if f.lt == FIXED_LENGTH_BYTES && |bs| != f.dataSize then None
            else
              var n := if f.lt == STRING then StringLength(bs, if f.at == STATIC then f.dataSize else |bs|) else |bs|;
              Some(EncVarint(n) + bs[..n])
  {
    assert bs[..|bs|] == bs;
  }

  /** Integers of any other width than 1, 2, 4 and 8 bytes are neither written nor read. */
  lemma OddWidth(f: Field, n: int, s: Bytes)
    requires f.lt in {VARINT, UVARINT, SVARINT} && f.dataSize !in {1, 2, 4, 8}
    ensures EncNumber(f, n) == None && DecNumber(f, s) == Err
  {
    hide DecVarint64;
  }
}
