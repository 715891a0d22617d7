/** Base 128 varints: what the readers and the writer of the wire format compute. */
module Varint {
  import opened Bits

  /** The result of a reader: a value and how many bytes it took, or failure. */
  datatype Parse<+T> = Ok(v: T, n: nat) | Err

  /** Length of the varint at the start of `s` if it ends within `max` bytes, else 0. */
  function VarintLen(s: Bytes, max: nat): (n: nat)
    ensures n <= |s| && n <= max
    ensures n > 0 ==> s[n - 1] < 128
    ensures forall i :: 0 <= i < n - 1 ==> s[i] >= 128
  {
    if max == 0 || s == [] then 0
    else if s[0] < 128 then 1
    else
      var r := VarintLen(s[1..], max - 1);
      if r == 0 then 0 else r + 1
  }

  /** Little-endian value of the 7-bit groups of `s`. */
  function Groups(s: Bytes): nat
  {
    if s == [] then 0 else s[0] % 128 + 128 * Groups(s[1..])
  }

  /** pb_decode_varint: at most 10 bytes, bits past the 64th dropped. */
  function DecVarint64(s: Bytes): (p: Parse<nat>)
    ensures p.Ok? ==> 1 <= p.n <= |s| && p.v < TWO_64
  {
    var n := VarintLen(s, 10);
    if n == 0 then Err else Ok(Groups(s[..n]) % TWO_64, n)
  }

  /** The do-while loop of pb_decode_varint32_eof; `bitpos` is an 8-bit counter. */
  function Varint32Loop(s: Bytes, bitpos: nat, result: nat): (p: Parse<nat>)
    ensures p.Ok? ==> 1 <= p.n <= |s|
    ensures p.Ok? && result < TWO_32 ==> p.v < TWO_32
    decreases |s|
  {
    if s == [] then Err
    else
      var b := s[0];
      if bitpos >= 32 && b % 128 != 0 &&
         (result / TWO_31 == 0 || b != if bitpos < 63 then 0xFF else 0x01) then Err
      else
        var r := if bitpos >= 32 then result else Or(result, Shl32(b % 128, bitpos));
        OrRange(result, Shl32(b % 128, bitpos));
        var next := (bitpos + 7) % 256;
        if b >= 128 then
          match Varint32Loop(s[1..], next, r)
          case Ok(v, n) => Ok(v, n + 1)
          case Err => Err
        else if next == 35 && b / 16 % 8 != 0 then Err
        else Ok(r, 1)
  }

  /** pb_decode_varint32. */
  function DecVarint32(s: Bytes): (p: Parse<nat>)
    ensures p.Ok? ==> 1 <= p.n <= |s| && p.v < TWO_32
  {
    if s == [] then Err
    else if s[0] < 128 then Ok(s[0], 1)
    else
      match Varint32Loop(s[1..], 7, s[0] % 128)
      case Ok(v, n) => Ok(v, n + 1)
      case Err => Err
  }

  /** The bytes pb_encode_varint writes. */
  function EncVarint(v: nat): (e: Bytes)
    ensures |e| >= 1
  {
    if v < 128 then [v] else [v % 128 + 128] + EncVarint(v / 128)
  }

  lemma {:induction false} GroupsOfEnc(v: nat)
    ensures Groups(EncVarint(v)) == v
  {
    if v >= 128 {
      GroupsOfEnc(v / 128);
      assert EncVarint(v)[1..] == EncVarint(v / 128);
    }
  }

  lemma {:induction false} EncLength(v: nat, t: Bytes, max: nat)
    requires |EncVarint(v)| <= max
    ensures VarintLen(EncVarint(v) + t, max) == |EncVarint(v)|
  {
    if v >= 128 {
      assert (EncVarint(v) + t)[1..] == EncVarint(v / 128) + t;
      EncLength(v / 128, t, max - 1);
    }
  }

  lemma {:induction false} EncBound(v: nat, k: nat)
    requires k >= 1 && v < Pow2(7 * k)
    ensures |EncVarint(v)| <= k
  {
    if v >= 128 {
      assert Pow2(7 * k) == 128 * Pow2(7 * (k - 1)) by {
        PowerSum(7, 7 * (k - 1));
        assert Pow2(7) == 128;
      }
      if k > 1 {
        EncBound(v / 128, k - 1);
      }
    }
  }

  /** A 64-bit value is written in at most 10 bytes, a 32-bit one in at most 5. */
  lemma EncSizes(v: nat)
    ensures v < TWO_64 ==> |EncVarint(v)| <= 10
    ensures v < TWO_32 ==> |EncVarint(v)| <= 5
  {
    hide Pow2, EncVarint;
    Powers();
    if v < TWO_64 {
      EncBound(v, 10);
    }
    if v < TWO_32 {
      EncBound(v, 5);
    }
  }

  /** Reading back what pb_encode_varint wrote gives the value and leaves any suffix alone. */
  lemma RoundTrip64(v: nat, t: Bytes)
    requires v < TWO_64
    ensures DecVarint64(EncVarint(v) + t) == Ok(v, |EncVarint(v)|)
  {
    hide EncVarint, VarintLen, Groups;
    EncSizes(v);
    EncLength(v, t, 10);
    GroupsOfEnc(v);
    assert (EncVarint(v) + t)[..|EncVarint(v)|] == EncVarint(v);
  }

  lemma {:induction false} EncMonotone(v: nat, w: nat)
    requires v <= w
    ensures |EncVarint(v)| <= |EncVarint(w)|
  {
    if v >= 128 {
      EncMonotone(v / 128, w / 128);
    }
  }

  lemma {:induction false} EncShortest(s: Bytes)
    requires |s| >= 1 && s[|s| - 1] < 128
    ensures |EncVarint(Groups(s))| <= |s|
  {
    if |s| > 1 {
      EncShortest(s[1..]);
      if Groups(s) >= 128 {
        assert Groups(s) / 128 == Groups(s[1..]);
      }
    } else {
      assert s[1..] == [];
    }
  }

  /** No accepted encoding of a value is shorter than the one pb_encode_varint writes. */
  lemma EncMinimal(s: Bytes)
    requires DecVarint64(s).Ok?
    ensures |EncVarint(DecVarint64(s).v)| <= DecVarint64(s).n
  {
    var n := VarintLen(s, 10);
    EncShortest(s[..n]);
    EncMonotone(Groups(s[..n]) % TWO_64, Groups(s[..n]));
  }

  lemma {:induction false} VarintLenLocal(s: Bytes, t: Bytes, max: nat)
    requires VarintLen(s, max) > 0
    ensures VarintLen(s + t, max) == VarintLen(s, max)
  {
    assert (s + t)[1..] == s[1..] + t;
    if s[0] >= 128 {
      VarintLenLocal(s[1..], t, max - 1);
    }
  }

  lemma Local64(s: Bytes, t: Bytes)
    requires DecVarint64(s).Ok?
    ensures DecVarint64(s + t) == DecVarint64(s)
  {
    VarintLenLocal(s, t, 10);
    var n := VarintLen(s, 10);
    assert (s + t)[..n] == s[..n];
  }

  lemma {:induction false} LoopLocal32(s: Bytes, t: Bytes, bitpos: nat, result: nat)
    requires Varint32Loop(s, bitpos, result).Ok?
    ensures Varint32Loop(s + t, bitpos, result) == Varint32Loop(s, bitpos, result)
    decreases |s|
  {
    assert (s + t)[1..] == s[1..] + t;
    if s[0] >= 128 {
      var r := if bitpos >= 32 then result else Or(result, Shl32(s[0] % 128, bitpos));
      LoopLocal32(s[1..], t, (bitpos + 7) % 256, r);
    }
  }

  lemma Local32(s: Bytes, t: Bytes)
    requires DecVarint32(s).Ok?
    ensures DecVarint32(s + t) == DecVarint32(s)
  {
    assert (s + t)[1..] == s[1..] + t;
    if s[0] >= 128 {
      LoopLocal32(s[1..], t, 7, s[0] % 128);
    }
  }

  /** Weight of the seven bits a varint carries in byte `i`, for the bytes a 32-bit value can reach. */
  function Weight(i: nat): (p: nat)
    requires i <= 4
    ensures p == [1, 0x80, 0x4000, 0x20_0000, 0x1000_0000][i]
  {
    [1, 0x80, 0x4000, 0x20_0000, 0x1000_0000][i]
  }

  lemma WeightIsPower(i: nat)
    requires 1 <= i <= 4
    ensures Weight(i) == Pow2(7 * i)
  {
    hide Pow2;
    Powers();
    if i == 1 {} else if i == 2 {} else if i == 3 {} else {}
  }

  /** The seven bits of byte `i` shifted into place; four of byte four's are within 32 bits. */
  lemma ShiftedByte(b: nat, i: nat)
    requires 1 <= i <= 4 && b < 128
    ensures Shl32(b, 7 * i) == (if i < 4 then b else b % 16) * Weight(i)
  {
    hide Pow2, Shl32;
    Shl32IsProduct(b, 7 * i);
    WeightIsPower(i);
    if i == 1 {
      assert b * 0x80 < TWO_32;
    } else if i == 2 {
      assert b * 0x4000 < TWO_32;
    } else if i == 3 {
      assert b * 0x20_0000 < TWO_32;
    } else {
      assert b * 0x1000_0000 == b % 16 * 0x1000_0000 + b / 16 * TWO_32;
      ModuloMultiple(b % 16 * 0x1000_0000, b / 16);
    }
  }

  lemma OrStep(r: nat, b: nat, i: nat)
    requires 1 <= i <= 4 && r < Weight(i) && b < 128
    ensures Or(r, Shl32(b, 7 * i)) == r + (if i < 4 then b else b % 16) * Weight(i)
  {
    hide Or, Shl32, Pow2, Weight;
    ShiftedByte(b, i);
    WeightIsPower(i);
    OrDisjoint(r, if i < 4 then b else b % 16, 7 * i);
  }

  /** One turn of the loop while the bits read still land inside the 32-bit result. */
  lemma Turn32(s: Bytes, i: nat, r: nat, p: nat)
    requires 1 <= i <= 4 && p == Weight(i) && r < p && s != []
    ensures var b := s[0] % 128;
            Varint32Loop(s, 7 * i, r) ==
            if s[0] < 128 then if i == 4 && b >= 16 then Err else Ok(r + b * p, 1)
            else match Varint32Loop(s[1..], 7 * i + 7, r + (if i < 4 then b else b % 16) * p)
                 case Ok(v, n) => Ok(v, n + 1)
                 case Err => Err
  {
    hide Or, Shl32, Weight;
    var b := s[0] % 128;
    OrStep(r, b, i);
    assert i == 4 && s[0] < 128 ==> (s[0] / 16 % 8 != 0 <==> b >= 16);
    assert Or(r, Shl32(b, 7 * i)) == r + (if i < 4 then b else b % 16) * p;
  }

  lemma Bounds32(i: nat, r: nat, b: nat, p: nat)
    requires 1 <= i <= 4 && p == Weight(i) && r < p && b < 128
    ensures i < 4 ==> r + b * p < Weight(i + 1) == 128 * p <= TWO_32
    ensures i == 4 ==> (r + b * p < TWO_32 <==> b < 16)
  {
  }

  /** What the loop accumulates over the `m` bytes of `s`, starting from `r` at weight `p`. */
  function Accumulated(s: Bytes, m: nat, r: nat, p: nat): nat
    requires m <= |s|
  {
    if m == 0 then r else Accumulated(s[1..], m - 1, r + s[0] % 128 * p, 128 * p)
  }

  lemma {:induction false} AccumulatedIsSum(s: Bytes, m: nat, r: nat, p: nat)
    requires m <= |s|
    ensures Accumulated(s, m, r, p) == r + Groups(s[..m]) * p
  {
    if m > 0 {
      var b := s[0] % 128;
      AccumulatedIsSum(s[1..], m - 1, r + b * p, 128 * p);
      assert s[..m][1..] == s[1..][..m - 1];
      Distribute(b, Groups(s[1..][..m - 1]), p);
    }
  }

  predicate LoopYields(s: Bytes, i: nat, r: nat, h: nat, m: nat)
  {
    Varint32Loop(s, 7 * i, r) == if h < TWO_32 then Ok(h, m) else Err
  }

  lemma LastTurn32(s: Bytes, i: nat, r: nat, p: nat)
    requires 1 <= i <= 4 && p == Weight(i) && r < p && s != [] && s[0] < 128
    ensures LoopYields(s, i, r, r + s[0] * p, 1)
  {
    hide Varint32Loop, Weight;
    Turn32(s, i, r, p);
    Bounds32(i, r, s[0], p);
  }

  lemma MoreTurns32(s: Bytes, i: nat, r: nat, p: nat, h: nat, m: nat)
    requires 1 <= i < 4 && p == Weight(i) && r < p && s != [] && s[0] >= 128
    requires LoopYields(s[1..], i + 1, r + s[0] % 128 * p, h, m)
    ensures LoopYields(s, i, r, h, m + 1)
  {
    Turn32(s, i, r, p);
  }

  /** The loop from byte `i` on, for a varint that ends by its fifth byte. */
  lemma {:induction false} ShortLoop32(s: Bytes, i: nat, r: nat, p: nat)
    requires 1 <= i <= 4 && p == Weight(i) && r < p && VarintLen(s, 5 - i) > 0
    ensures var m := VarintLen(s, 5 - i);
            LoopYields(s, i, r, Accumulated(s, m, r, p), m)
    decreases |s|
  {
    hide LoopYields, Varint32Loop, Weight;
    if s[0] >= 128 {
      var next := r + s[0] % 128 * p;
      Bounds32(i, r, s[0] % 128, p);
      ShortLoop32(s[1..], i + 1, next, 128 * p);
      var m := VarintLen(s[1..], 4 - i);
      MoreTurns32(s, i, r, p, Accumulated(s[1..], m, next, 128 * p), m);
    } else {
      LastTurn32(s, i, r, p);
      assert Accumulated(s[1..], 0, r + s[0] * p, 128 * p) == r + s[0] * p;
    }
  }

  lemma Distribute(b: nat, g: nat, p: nat)
    ensures (b + 128 * g) * p == b * p + g * (128 * p)
  {
  }

  /** On a varint of at most five bytes the 32-bit reader succeeds exactly when the value fits. */
  lemma ShortVarint32(s: Bytes)
    requires VarintLen(s, 5) > 0
    ensures var n := VarintLen(s, 5);
            DecVarint32(s) == if Groups(s[..n]) < TWO_32 then Ok(Groups(s[..n]), n) else Err
  {
    hide Varint32Loop, Or;
    var n := VarintLen(s, 5);
    assert s[..n][1..] == s[1..][..n - 1];
    if s[0] >= 128 {
      ShortLoop32(s[1..], 1, s[0] % 128, 128);
      AccumulatedIsSum(s[1..], n - 1, s[0] % 128, 128);
    } else {
      assert s[..1][1..] == [];
    }
  }

  lemma RoundTrip32(v: nat, t: Bytes)
    requires v < TWO_32
    ensures DecVarint32(EncVarint(v) + t) == Ok(v, |EncVarint(v)|)
  {
    hide EncVarint, VarintLen, Groups, DecVarint32;
    EncSizes(v);
    EncLength(v, t, 5);
    GroupsOfEnc(v);
    assert (EncVarint(v) + t)[..|EncVarint(v)|] == EncVarint(v);
    ShortVarint32(EncVarint(v) + t);
  }

  // ----- The two readers on the same bytes -----

  lemma {:induction false} GroupsSplit(s: Bytes, k: nat, p: nat)
    requires k <= |s| && p == Pow2(7 * k)
    ensures Groups(s) == Groups(s[..k]) + Groups(s[k..]) * p
  {
    hide Pow2;
    if k > 0 {
      var q := Pow2(7 * (k - 1));
      SevenMore(k);
      GroupsSplit(s[1..], k - 1, q);
      assert s[..k][1..] == s[1..][..k - 1] && s[k..] == s[1..][k - 1..];
      Reweigh(s[0] % 128, Groups(s[..k][1..]), Groups(s[k..]), q);
    } else {
      PowZero();
      assert s[..0] == [] && s[0..] == s;
    }
  }

  lemma PowZero()
    ensures Pow2(0) == 1
  {
  }

  lemma SevenMore(k: nat)
    requires k > 0
    ensures Pow2(7 * k) == 128 * Pow2(7 * (k - 1))
  {
    hide Pow2;
    PowerSum(7, 7 * (k - 1));
    SmallPowers();
  }

  lemma Reweigh(b: nat, low: nat, high: nat, p: nat)
    ensures b + 128 * (low + high * p) == b + 128 * low + high * (128 * p)
  {
  }

  /** The bits from byte five on weigh at least 2^35, so they vanish modulo 2^32. */
  lemma GroupsModulo(s: Bytes)
    requires |s| >= 5
    ensures Groups(s) % TWO_32 == Groups(s[..5]) % TWO_32
  {
    hide Pow2, Groups;
    Powers();
    GroupsSplit(s, 5, 8 * TWO_32);
    ModuloMultiple(Groups(s[..5]), 8 * Groups(s[5..]));
  }

  lemma ModuloMultiple(a: nat, k: nat)
    ensures (a + k * TWO_32) % TWO_32 == a % TWO_32
  {
  }

  /** Past its fifth byte the 32-bit loop only checks; up to byte ten `bitpos` does not wrap. */
  lemma {:induction false} TailLoop32(s: Bytes, bitpos: nat, r: nat, max: nat)
    requires 32 < bitpos && bitpos + 7 * max <= 70 && VarintLen(s, max) > 0
    requires Varint32Loop(s, bitpos, r).Ok?
    ensures Varint32Loop(s, bitpos, r) == Ok(r, VarintLen(s, max))
    decreases |s|
  {
    if s[0] >= 128 {
      TailLoop32(s[1..], bitpos + 7, r, max - 1);
    }
  }

  /** The fifth byte contributes four bits and the rest of it is dropped. */
  lemma FifthByte(r: nat, b: nat)
    requires r < 0x1000_0000 && b < 128
    ensures (r + b * 0x1000_0000) % TWO_32 == r + b % 16 * 0x1000_0000
  {
    assert r + b * 0x1000_0000 == r + b % 16 * 0x1000_0000 + b / 16 * TWO_32;
    ModuloMultiple(r + b % 16 * 0x1000_0000, b / 16);
  }

  /** If the loop accepts at all, it yields `h` modulo 2^32 after `m` bytes. */
  predicate YieldsModulo(s: Bytes, i: nat, r: nat, h: nat, m: nat)
  {
    Varint32Loop(s, 7 * i, r).Ok? ==> Varint32Loop(s, 7 * i, r) == Ok(h % TWO_32, m)
  }

  lemma FifthTurn32(s: Bytes, r: nat)
    requires r < 0x1000_0000 && VarintLen(s, 6) > 1
    ensures var b: nat := s[0] % 128;
            YieldsModulo(s, 4, r, r + b * 0x1000_0000, VarintLen(s, 6))
  {
    hide Varint32Loop, Or, Shl32;
    var b: nat := s[0] % 128;
    Turn32(s, 4, r, 0x1000_0000);
    FifthByte(r, b);
    if Varint32Loop(s, 28, r).Ok? {
      TailLoop32(s[1..], 35, r + b % 16 * 0x1000_0000, 5);
    }
  }

  lemma MoreTurnsModulo(s: Bytes, i: nat, r: nat, p: nat, h: nat, m: nat)
    requires 1 <= i < 4 && p == Weight(i) && r < p && s != [] && s[0] >= 128
    requires YieldsModulo(s[1..], i + 1, r + s[0] % 128 * p, h, m)
    ensures YieldsModulo(s, i, r, h, m + 1)
  {
    Turn32(s, i, r, p);
  }

  lemma {:induction false} LongLoop32(s: Bytes, i: nat, r: nat, p: nat)
    requires 1 <= i <= 4 && p == Weight(i) && r < p && VarintLen(s, 10 - i) > 5 - i
    ensures YieldsModulo(s, i, r, Accumulated(s, 5 - i, r, p), VarintLen(s, 10 - i))
    decreases |s|
  {
    hide YieldsModulo, Varint32Loop, Weight;
    var next := r + s[0] % 128 * p;
    var m := VarintLen(s[1..], 9 - i);
    if i < 4 {
      Bounds32(i, r, s[0] % 128, p);
      LongLoop32(s[1..], i + 1, next, 128 * p);
      MoreTurnsModulo(s, i, r, p, Accumulated(s[1..], 4 - i, next, 128 * p), m);
    } else {
      FifthTurn32(s, r);
      assert Accumulated(s[1..], 0, next, 128 * p) == next;
    }
  }

  lemma LongVarint32(s: Bytes)
    requires VarintLen(s, 10) > 5 && DecVarint32(s).Ok?
    ensures var n := VarintLen(s, 10);
            DecVarint32(s) == Ok(Groups(s[..n]) % TWO_32, n)
  {
    hide Varint32Loop;
    var n := VarintLen(s, 10);
    var r: nat := s[0] % 128;
    LongLoop32(s[1..], 1, r, 128);
    AccumulatedIsSum(s[1..], 4, r, 128);
    assert s[..5][1..] == s[1..][..4] && s[..n][..5] == s[..5];
    GroupsModulo(s[..n]);
  }

  /** The bound does not matter as long as the varint ends within it. */
  lemma {:induction false} VarintLenWithin(s: Bytes, max: nat, other: nat)
    requires 0 < VarintLen(s, max) <= other
    ensures VarintLen(s, other) == VarintLen(s, max)
    decreases |s|
  {
    if s[0] >= 128 {
      VarintLenWithin(s[1..], max - 1, other - 1);
    }
  }

  lemma ModuloHalves(a: nat)
    ensures a % TWO_64 % TWO_32 == a % TWO_32
  {
    ModuloMultiple(a % TWO_64, a / TWO_64 * TWO_32);
  }

  /** Whenever both readers accept the same bytes they take the same number of them, and the
      32-bit result is the low half of the 64-bit one. */
  lemma ReadersAgree(s: Bytes)
    requires DecVarint32(s).Ok? && DecVarint64(s).Ok?
    ensures DecVarint32(s).n == DecVarint64(s).n
    ensures DecVarint32(s).v == DecVarint64(s).v % TWO_32
  {
    var n := VarintLen(s, 10);
    var g := Groups(s[..n]);
    ModuloHalves(g);
    if n <= 5 {
      VarintLenWithin(s, 10, 5);
      ShortVarint32(s);
      assert DecVarint32(s) == Ok(g, n);
    } else {
      LongVarint32(s);
    }
  }

  /** 64-bit sign extension of a negative int32, from bit `7 * i` on: all ones above a few bits. */
  predicate SignExtended(w: nat, i: nat)
  {
    && 1 <= i <= 4
    && var top := [TWO_64, TWO_64 / 0x80, TWO_64 / 0x4000, TWO_64 / 0x20_0000, TWO_64 / 0x1000_0000][i];
       var low := [TWO_31, TWO_31 / 0x80, TWO_31 / 0x4000, TWO_31 / 0x20_0000, TWO_31 / 0x1000_0000][i];
       top - low <= w < top
  }

  lemma OnesEncoded()
    ensures EncVarint(0x1FFF_FFFF) == [0xFF, 0xFF, 0xFF, 0xFF, 0x01]
  {
    assert EncVarint(1) == [0x01];
    assert EncVarint(0xFF) == [0xFF] + EncVarint(1);
    assert EncVarint(0x7FFF) == [0xFF] + EncVarint(0xFF);
    assert EncVarint(0x3F_FFFF) == [0xFF] + EncVarint(0x7FFF);
    assert EncVarint(0x1FFF_FFFF) == [0xFF] + EncVarint(0x3F_FFFF);
  }

  /** One more byte of ones is skipped by the loop once the result has its top bit set. */
  lemma OnesTurn(t: Bytes, bitpos: nat, r: nat)
    requires 32 <= bitpos < 56 && r / TWO_31 == 1 && Varint32Loop(t, bitpos + 7, r).Ok?
    ensures Varint32Loop([0xFF] + t, bitpos, r).Ok?
  {
    hide Or, Shl32;
    assert ([0xFF] + t)[1..] == t;
  }

  lemma OnesTail(t: Bytes, r: nat)
    requires r / TWO_31 == 1
    ensures Varint32Loop(EncVarint(0x1FFF_FFFF) + t, 35, r).Ok?
  {
    hide Or, Shl32, EncVarint;
    OnesEncoded();
    var t0 := [0x01] + t;
    assert Varint32Loop(t0, 63, r).Ok?;
    assert ([0xFF] + t0)[1..] == t0;
    assert Varint32Loop([0xFF] + t0, 56, r).Ok?;
    var t1 := [0xFF] + t0;
    OnesTurn(t1, 49, r);
    OnesTurn([0xFF] + t1, 42, r);
    OnesTurn([0xFF] + ([0xFF] + t1), 35, r);
    assert [0xFF, 0xFF, 0xFF, 0xFF, 0x01] + t == [0xFF] + ([0xFF] + ([0xFF] + t1));
  }

  lemma SignExtendedStep(w: nat, i: nat)
    requires SignExtended(w, i)
    ensures i < 4 ==> SignExtended(w / 128, i + 1)
    ensures i == 4 ==> w / 128 == 0x1FFF_FFFF && 8 <= w % 128 % 16
    ensures w >= 128
  {
    if i == 1 {} else if i == 2 {} else if i == 3 {} else {}
  }

  lemma NegativeLast(w: nat, r: nat, t: Bytes)
    requires SignExtended(w, 4) && r < 0x1000_0000
    ensures |EncVarint(w)| == 6
    ensures Varint32Loop(EncVarint(w) + t, 28, r).Ok?
  {
    hide Or, Shl32;
    var s := EncVarint(w) + t;
    SignExtendedStep(w, 4);
    OnesEncoded();
    assert s[1..] == EncVarint(w / 128) + t;
    Turn32(s, 4, r, 0x1000_0000);
    var b: nat := w % 128;
    OnesTail(t, r + b % 16 * 0x1000_0000);
  }

  lemma {:induction false} NegativeLoop(w: nat, i: nat, r: nat, p: nat, t: Bytes)
    requires SignExtended(w, i) && p == Weight(i) && r < p
    ensures |EncVarint(w)| == 10 - i
    ensures Varint32Loop(EncVarint(w) + t, 7 * i, r).Ok?
    decreases 4 - i
  {
    hide Varint32Loop, Weight;
    if i < 4 {
      var s := EncVarint(w) + t;
      var b: nat := w % 128;
      SignExtendedStep(w, i);
      assert s[0] % 128 == b && s[1..] == EncVarint(w / 128) + t;
      Bounds32(i, r, b, p);
      NegativeLoop(w / 128, i + 1, r + b * p, 128 * p, t);
      NegativeTurn(s, i, r, p);
    } else {
      NegativeLast(w, r, t);
    }
  }

  lemma NegativeTurn(s: Bytes, i: nat, r: nat, p: nat)
    requires 1 <= i < 4 && p == Weight(i) && r < p && s != [] && s[0] >= 128
    requires Varint32Loop(s[1..], 7 * (i + 1), r + s[0] % 128 * p).Ok?
    ensures Varint32Loop(s, 7 * i, r).Ok?
  {
    Turn32(s, i, r, p);
  }

  lemma LowHalf(v: int)
    requires -TWO_31 <= v < 0
    ensures (v + TWO_64) % TWO_32 == v + TWO_32
  {
    ModuloMultiple(v + TWO_32, TWO_32 - 1);
  }

  lemma NegativeAccepted(w: nat, t: Bytes)
    requires TWO_64 - TWO_31 <= w < TWO_64
    ensures |EncVarint(w)| == 10 && DecVarint32(EncVarint(w) + t).Ok?
  {
    hide Varint32Loop, Weight;
    var s := EncVarint(w) + t;
    assert s[0] == w % 128 + 128 && s[1..] == EncVarint(w / 128) + t;
    NegativeLoop(w / 128, 1, w % 128, 128, t);
  }

  /** The ten-byte form of every negative int32 reads as its 32-bit two's complement. */
  lemma NegativeInt32(v: int, t: Bytes)
    requires -TWO_31 <= v < 0
    ensures DecVarint32(EncVarint(v + TWO_64) + t) == Ok(v + TWO_32, 10)
  {
    var w: nat := v + TWO_64;
    NegativeAccepted(w, t);
    RoundTrip64(w, t);
    ReadersAgree(EncVarint(w) + t);
    LowHalf(v);
  }
}
