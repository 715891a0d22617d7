/** Input streams, substreams and the readers of the wire format as they run. */
module Input {
  import opened Bits
  import opened Varint
  import opened DecodeSpec

  /** A stream at one moment: the bytes behind it, where it stands and how far it may read. */
  datatype Tape = Tape(bytes: Bytes, at: nat, left: nat)
  {
    predicate Valid()
    {
      at + left <= |bytes|
    }

    function Rest(): Bytes
      requires Valid()
    {
      bytes[at..at + left]
    }

    function Advance(n: nat): Tape
      requires n <= left
    {
      Tape(bytes, at + n, left - n)
    }
  }

  /** Exactly `n` bytes were consumed; position plus bytes left has not changed. */
  predicate Took(a: Tape, b: Tape, n: nat)
  {
    a.Valid() && n <= a.left && b == a.Advance(n)
  }

  /** After a failure the stream still stands within the bytes it was given. */
  predicate Within(a: Tape, b: Tape)
  {
    b.bytes == a.bytes && b.Valid() && b.at + b.left <= a.at + a.left
  }

  lemma TookRest(a: Tape, b: Tape, n: nat)
    requires Took(a, b, n)
    ensures b.Valid() && b.Rest() == a.Rest()[n..] && |a.Rest()| == a.left
  {
  }

  lemma TookBoth(a: Tape, b: Tape, c: Tape, m: nat, n: nat)
    requires Took(a, b, m) && Took(b, c, n)
    ensures Took(a, c, m + n)
  {
  }

  lemma TookNothing(a: Tape)
    requires a.Valid()
    ensures Took(a, a, 0)
  {
  }

  lemma TookWithin(a: Tape, b: Tape, n: nat)
    requires Took(a, b, n)
    ensures Within(a, b) && n <= a.left && b.left == a.left - n
  {
  }

  lemma WithinBoth(a: Tape, b: Tape, c: Tape, n: nat)
    requires Took(a, b, n) && Within(b, c)
    ensures Within(a, c)
  {
  }

  /** What a reader of the wire format promises against its specification `p`. */
  predicate Delivers<T(==)>(a: Tape, b: Tape, p: Parse<T>, ok: bool, v: T)
  {
    && Within(a, b)
    && match p
       case Ok(w, n) => ok && v == w && Took(a, b, n)
       case Err => !ok
  }

  class IStream {
    const buf: array<Byte>
    const custom: bool          // the callback is not buf_read
    var state: nat
    var bytesLeft: nat

    ghost function Now(): Tape
      reads this, buf
    {
      Tape(buf[..], state, bytesLeft)
    }

    ghost predicate Valid()
      reads this, buf
    {
      Now().Valid()
    }

    ghost function Rest(): Bytes
      requires Valid()
      reads this, buf
    {
      Now().Rest()
    }

    /** pb_istream_from_buffer over the first `size` bytes. */
    constructor FromBuffer(source: array<Byte>, size: nat, custom: bool)
      requires size <= source.Length
      ensures buf == source && state == 0 && bytesLeft == size && Valid() && this.custom == custom
    {
      buf := source;
      this.custom := custom;
      state, bytesLeft := 0, size;
    }

    /** The copy of a stream that pb_make_string_substream hands out. */
    constructor Sub(parent: IStream, size: nat)
      requires parent.Valid() && size <= parent.bytesLeft
      ensures buf == parent.buf && state == parent.state && bytesLeft == size && Valid() && custom == parent.custom
    {
      buf := parent.buf;
      custom := parent.custom;
      state, bytesLeft := parent.state, size;
    }

    /** pb_read into a buffer. */
    method Read(count: nat) returns (ok: bool, out: Bytes)
      requires Valid()
      modifies this
      ensures Within(old(Now()), Now()) && ok == (count <= old(bytesLeft))
      ensures if ok then Took(old(Now()), Now(), count) && out == old(Rest())[..count] else Now() == old(Now())
    {
      out := [];
      if count == 0 {
        return true, [];
      }
      if bytesLeft < count {
        return false, [];
      }
      out := buf[state..state + count];
      state := state + count;
      bytesLeft := bytesLeft - count;
      ok := true;
    }

    /** pb_read with a null buffer: buffer streams jump, others read and drop 16 bytes at a time. On
        success the two amount to the same. */
    method SkipBytes(count: nat) returns (ok: bool)
      requires Valid()
      modifies this
      ensures Within(old(Now()), Now()) && ok == (count <= old(bytesLeft))
      ensures ok ==> Took(old(Now()), Now(), count)
    {
      var tmp;
      if !custom {
        ok, tmp := Read(count);
        return;
      }
      var left: nat := count;
      while left > 16
        invariant left <= count && count - left <= old(bytesLeft)
        invariant Took(old(Now()), Now(), count - left)
      {
        ok, tmp := Read(16);
        if !ok {
          return;
        }
        left := left - 16;
      }
      ok, tmp := Read(left);
    }

    /** pb_readbyte. */
    method ReadByte() returns (ok: bool, b: Byte)
      requires Valid()
      modifies this
      ensures Within(old(Now()), Now()) && ok == (old(bytesLeft) > 0)
      ensures ok ==> Took(old(Now()), Now(), 1) && b == old(Rest())[0]
      ensures !ok ==> Now() == old(Now())
    {
      if bytesLeft == 0 {
        return false, 0;
      }
      b := buf[state];
      state := state + 1;
      bytesLeft := bytesLeft - 1;
      ok := true;
    }
  }

  // ----- Varints -----

  /** pb_decode_varint32_eof; `eof` is set when there was not even a first byte. */
  method DecodeVarint32Eof(stream: IStream) returns (ok: bool, dest: nat, eof: bool)
    requires stream.Valid()
    modifies stream
    ensures Delivers(old(stream.Now()), stream.Now(), DecVarint32(old(stream.Rest())), ok, dest)
    ensures eof == (old(stream.bytesLeft) == 0)
  {
    ghost var a := stream.Now();
    ghost var s := stream.Rest();
    var b;
    dest, eof := 0, false;
    ok, b := stream.ReadByte();
    if !ok {
      eof := true;
      return;
    }
    if b < 128 {
      dest := b;
      return;
    }
    ok, dest := Varint32More(stream, b % 128, s);
  }

  /** Its loop over the second and later bytes. */
  method Varint32More(stream: IStream, first: nat, ghost s: Bytes) returns (ok: bool, dest: nat)
    requires stream.Valid() && s != [] && stream.Rest() == s[1..]
    modifies stream
    ensures Delivers(old(stream.Now()), stream.Now(), Varint32Loop(s[1..], 7, first), ok, dest)
  {
    hide Or, Shl32;
    ghost var a := stream.Now();
    var bitpos: nat, result: nat := 7, first;
    var b: Byte := 0x80;
    ghost var done := 0;
    while b >= 128
      invariant stream.Valid() && Took(a, stream.Now(), done)
      invariant b >= 128 ==>
                  Varint32Loop(s[1..], 7, first) ==
                  match Varint32Loop(stream.Rest(), bitpos, result)
                  case Ok(v, n) => Ok(v, done + n)
                  case Err => Err
      invariant b < 128 ==>
                  Varint32Loop(s[1..], 7, first) == if bitpos == 35 && b / 16 % 8 != 0 then Err else Ok(result, done)
      decreases stream.bytesLeft, b
    {
      ghost var rest := stream.Rest();
      ghost var before := stream.Now();
      ok, b := stream.ReadByte();
      if !ok {
        return false, 0;
      }
      TookRest(before, stream.Now(), 1);
      if bitpos >= 32 {
        var signExtension := if bitpos < 63 then 0xFF else 0x01;
        if b % 128 != 0 && (result / TWO_31 == 0 || b != signExtension) {
          return false, 0;
        }
      } else {
        result := Or(result, Shl32(b % 128, bitpos));
      }
      bitpos := (bitpos + 7) % 256;
      done := done + 1;
    }
    if bitpos == 35 && b / 16 % 8 != 0 {
      return false, 0;
    }
    return true, result;
  }

  /** pb_decode_varint32. */
  method DecodeVarint32(stream: IStream) returns (ok: bool, dest: nat)
    requires stream.Valid()
    modifies stream
    ensures Delivers(old(stream.Now()), stream.Now(), DecVarint32(old(stream.Rest())), ok, dest)
  {
    var eof;
    ok, dest, eof := DecodeVarint32Eof(stream);
  }

  /** x << n on a 64-bit unsigned integer. */
  function Shl64(x: nat, n: nat): (r: nat)
    ensures r < TWO_64
    decreases n
  {
    if n == 0 then x % TWO_64 else Shl64(2 * x, n - 1)
  }

  lemma {:induction false} Shl64IsProduct(x: nat, n: nat)
    ensures Shl64(x, n) == (x * Pow2(n)) % TWO_64
    decreases n
  {
    if n > 0 {
      Shl64IsProduct(2 * x, n - 1);
      Doubled(x, Pow2(n - 1));
    }
  }

  lemma Modulo64(a: nat, k: nat)
    ensures (a + k * TWO_64) % TWO_64 == a % TWO_64
  {
  }

  lemma Powers64(i: nat)
    requires i <= 9
    ensures Pow2(7 * i) <= TWO_63 && (i < 9 ==> 128 * Pow2(7 * i) <= TWO_63) && (i == 9 ==> Pow2(7 * i) == TWO_63)
  {
    hide Pow2;
    PowZero();
    Powers();
    if i == 6 {
      PowerSum(28, 14);
    } else if i == 7 {
      PowerSum(28, 21);
    } else if i == 8 {
      PowerSum(28, 28);
    } else if i == 9 {
      PowerSum(28, 35);
    }
  }

  lemma TenthByte(r: nat, b: nat)
    requires b < 128
    ensures (b * TWO_63) % TWO_64 == b % 2 * TWO_63
    ensures r < TWO_63 ==> (r + b * TWO_63) % TWO_64 == r + b % 2 * TWO_63
  {
    assert b * TWO_63 == b % 2 * TWO_63 + b / 2 * TWO_64;
    Modulo64(b % 2 * TWO_63, b / 2);
    Modulo64(r + b % 2 * TWO_63, b / 2);
  }

  lemma SmallProduct(r: nat, b: nat, p: nat)
    requires r < p && b < 128 && 128 * p <= TWO_63
    ensures b * p < TWO_64 && r + b * p < 128 * p
  {
    Product(b, 127, p);
  }

  lemma OrEarlyByte(r: nat, b: nat, k: nat, p: nat)
    requires p == Pow2(k) && r < p && b < 128 && 128 * p <= TWO_63
    ensures Or(r, Shl64(b, k)) == r + b * p == (r + b * p) % TWO_64
    ensures r + b * p < 128 * p
  {
    hide Or, Shl64, Pow2;
    SmallProduct(r, b, p);
    Shl64IsProduct(b, k);
    OrDisjoint(r, b, k);
    Small64(b * p);
    Small64(r + b * p);
  }

  lemma Small64(x: nat)
    requires x < TWO_64
    ensures x % TWO_64 == x
  {
  }

  lemma OrTenthByte(r: nat, b: nat)
    requires Pow2(63) == TWO_63 && r < TWO_63 && b < 128
    ensures Or(r, Shl64(b, 63)) == (r + b * TWO_63) % TWO_64
  {
    hide Or, Shl64, Pow2;
    TenthByte(r, b);
    Shl64IsProduct(b, 63);
    OrDisjoint(r, b % 2, 63);
  }

  /** One more byte: the bits that fit are ORed in, those past the 64th are dropped. */
  lemma OrByte(r: nat, b: nat, i: nat, p: nat)
    requires i <= 9 && p == Pow2(7 * i) && r < p && b < 128
    ensures Or(r, Shl64(b, 7 * i)) == (r + b * p) % TWO_64
    ensures i < 9 ==> r + b * p < 128 * p
  {
    hide Or, Shl64, Pow2;
    Powers64(i);
    if i < 9 {
      OrEarlyByte(r, b, 7 * i, p);
    } else {
      OrTenthByte(r, b);
    }
  }

  /** The value of the first `i + 1` bytes from that of the first `i`. */
  lemma GroupsMore(s: Bytes, i: nat)
    requires i < |s|
    ensures Groups(s[..i + 1]) == Groups(s[..i]) + s[i] % 128 * Pow2(7 * i)
  {
    var t := s[..i + 1];
    GroupsSplit(t, i, Pow2(7 * i));
    assert t[..i] == s[..i] && t[i..] == [s[i]];
    assert Groups([s[i]]) == s[i] % 128 by {
      assert [s[i]][1..] == [];
    }
  }

  /** The reader's loop after `i` bytes that all had their top bit set. */
  predicate Reading64(s: Bytes, i: nat, bitpos: nat, result: nat)
  {
    && i <= |s| && i <= 10 && bitpos == 7 * i
    && (forall j :: 0 <= j < i ==> s[j] >= 128)
    && result == Groups(s[..i]) % TWO_64
    && (i < 10 ==> result < Pow2(7 * i) && result == Groups(s[..i]))
  }

  lemma {:induction false} VarintLenScan(s: Bytes, i: nat, max: nat)
    requires i <= |s| && i <= max && forall j :: 0 <= j < i ==> s[j] >= 128
    ensures i == |s| || i == max ==> VarintLen(s, max) == 0
    ensures i < |s| && i < max && s[i] < 128 ==> VarintLen(s, max) == i + 1
    decreases i
  {
    if i > 0 {
      VarintLenScan(s[1..], i - 1, max - 1);
    }
  }

  lemma ReadByte64(s: Bytes, i: nat, bitpos: nat, result: nat)
    requires Reading64(s, i, bitpos, result) && i < 10 && i < |s|
    ensures var r := Or(result, Shl64(s[i] % 128, bitpos));
            && r == Groups(s[..i + 1]) % TWO_64
            && (s[i] >= 128 ==> Reading64(s, i + 1, bitpos + 7, r))
  {
    hide Or, Shl64, Groups;
    var p := Pow2(7 * i);
    OrByte(result, s[i] % 128, i, p);
    GroupsMore(s, i);
    Powers64(i);
    assert Pow2(7 * (i + 1)) == 128 * p by {
      SevenMore(i + 1);
    }
    if i < 9 {
      assert result + s[i] % 128 * p < TWO_64;
    }
  }

  lemma Scan64(s: Bytes, i: nat, bitpos: nat, result: nat)
    requires Reading64(s, i, bitpos, result)
    ensures i <= 10 && (bitpos >= 64 <==> i == 10)
    ensures i == |s| || i == 10 ==> VarintLen(s, 10) == 0
    ensures i < |s| && i < 10 && s[i] < 128 ==> VarintLen(s, 10) == i + 1
  {
    VarintLenScan(s, i, 10);
  }

  /** pb_decode_varint. */
  method DecodeVarint(stream: IStream) returns (ok: bool, dest: nat)
    requires stream.Valid()
    modifies stream
    ensures Delivers(old(stream.Now()), stream.Now(), DecVarint64(old(stream.Rest())), ok, dest)
  {
    hide Or, Shl64, Groups, VarintLen, Pow2, Reading64;
    ghost var a, s := stream.Now(), stream.Rest();
    var bitpos: nat, result: nat := 0, 0;
    var b: Byte := 0x80;
    ghost var i := 0;
    assert s[..0] == [] && Reading64(s, 0, 0, 0) by {
      Start64(s);
    }
    while b >= 128
      invariant stream.Valid() && i <= |s| && Took(a, stream.Now(), i) && stream.Rest() == s[i..]
      invariant b >= 128 ==> Reading64(s, i, bitpos, result)
      invariant b < 128 ==> VarintLen(s, 10) == i > 0 && result == Groups(s[..i]) % TWO_64
      decreases stream.bytesLeft, b
    {
      Scan64(s, i, bitpos, result);
      if bitpos >= 64 {
        return false, 0;
      }
      ghost var before := stream.Now();
      ok, b := stream.ReadByte();
      if !ok {
        return false, 0;
      }
      TookRest(before, stream.Now(), 1);
      ReadByte64(s, i, bitpos, result);
      result := Or(result, Shl64(b % 128, bitpos));
      bitpos := bitpos + 7;
      i := i + 1;
    }
    return true, result;
  }

  lemma Start64(s: Bytes)
    ensures Reading64(s, 0, 0, 0)
  {
    assert s[..0] == [] && Pow2(0) == 1;
  }

  // ----- Skipping and tags -----

  /** pb_skip_varint: no limit on the number of bytes. */
  method SkipVarint(stream: IStream) returns (ok: bool)
    requires stream.Valid()
    modifies stream
    ensures Delivers(old(stream.Now()), stream.Now(), Skip(WT_VARINT, old(stream.Rest())), ok, ())
  {
    hide VarintLen;
    ghost var a, s := stream.Now(), stream.Rest();
    var b: Byte := 0x80;
    ghost var i := 0;
    while b >= 128
      invariant stream.Valid() && i <= |s| && Took(a, stream.Now(), i) && stream.Rest() == s[i..]
      invariant b >= 128 ==> forall j :: 0 <= j < i ==> s[j] >= 128
      invariant b < 128 ==> VarintLen(s, |s|) == i > 0
      decreases stream.bytesLeft, b
    {
      ghost var before := stream.Now();
      VarintLenScan(s, i, |s|);
      ok, b := stream.ReadByte();
      if !ok {
        return false;
      }
      TookRest(before, stream.Now(), 1);
      i := i + 1;
    }
    return true;
  }

  /** pb_skip_string. */
  method SkipString(stream: IStream) returns (ok: bool)
    requires stream.Valid()
    modifies stream
    ensures Delivers(old(stream.Now()), stream.Now(), Skip(WT_STRING, old(stream.Rest())), ok, ())
  {
    hide DecVarint32;
    var length;
    ok, length := DecodeVarint32(stream);
    if !ok {
      return;
    }
    ok := stream.SkipBytes(length);
  }

  /** pb_skip_field. */
  method SkipField(stream: IStream, wt: nat) returns (ok: bool)
    requires stream.Valid()
    modifies stream
    ensures Delivers(old(stream.Now()), stream.Now(), Skip(wt, old(stream.Rest())), ok, ())
  {
    hide VarintLen, DecVarint32;
    if wt == WT_VARINT {
      ok := SkipVarint(stream);
    } else if wt == WT_64BIT {
      ok := stream.SkipBytes(8);
    } else if wt == WT_STRING {
      ok := SkipString(stream);
    } else if wt == WT_32BIT {
      ok := stream.SkipBytes(4);
    } else {
      ok := false;
    }
  }

  /** pb_decode_tag: a zero counts as the end of the message. */
  method DecodeTag(stream: IStream) returns (ok: bool, wireType: nat, tag: nat, eof: bool)
    requires stream.Valid()
    modifies stream
    ensures Within(old(stream.Now()), stream.Now())
    ensures match DecVarint32(old(stream.Rest()))
            case Err => !ok && eof == (old(stream.bytesLeft) == 0)
            case Ok(t, n) =>
              && Took(old(stream.Now()), stream.Now(), n)
              && if t == 0 then !ok && eof else ok && !eof && tag == t / 8 && wireType == t % 8
  {
    hide DecVarint32;
    var temp;
    wireType, tag := 0, 0;
    ok, temp, eof := DecodeVarint32Eof(stream);
    if !ok {
      return;
    }
    if temp == 0 {
      return false, wireType, tag, true;
    }
    tag := temp / 8;
    wireType := temp % 8;
    eof := false;
  }

  // ----- Substreams -----

  /** pb_make_string_substream: the length is taken off the parent at once, but its position stays at
      the start of the payload until the substream is closed. */
  method MakeSubstream(stream: IStream) returns (ok: bool, sub: IStream?)
    requires stream.Valid()
    modifies stream
    ensures Within(old(stream.Now()), stream.Now())
    ensures match DecVarint32(old(stream.Rest()))
            case Err => !ok
            case Ok(size, n) =>
              && ok == (size <= old(stream.bytesLeft) - n)
              && (ok ==>
                    && sub != null && fresh(sub) && sub.buf == stream.buf
                    && var a := old(stream.Now());
                       && sub.Now() == Tape(a.bytes, a.at + n, size)
                       && stream.Now() == Tape(a.bytes, a.at + n, a.left - n - size))
  {
    hide DecVarint32;
    var size;
    sub := null;
    ok, size := DecodeVarint32(stream);
    if !ok {
      return;
    }
    if stream.bytesLeft < size {
      return false, null;
    }
    sub := new IStream.Sub(stream, size);
    stream.bytesLeft := stream.bytesLeft - size;
  }

  /** pb_close_string_substream: whatever the substream has left is read off it, and the parent goes on
      where the substream ends. */
  method CloseSubstream(stream: IStream, sub: IStream) returns (ok: bool)
    requires stream != sub && stream.Valid() && sub.Valid() && sub.buf == stream.buf
    requires sub.state + sub.bytesLeft + stream.bytesLeft <= stream.buf.Length
    modifies stream, sub
    ensures ok && stream.Valid()
    ensures stream.Now() == old(stream.Now()).(at := old(sub.state) + old(sub.bytesLeft))
  {
    if sub.bytesLeft > 0 {
      ok := sub.SkipBytes(sub.bytesLeft);
      if !ok {
        return;
      }
    }
    stream.state := sub.state;
    ok := true;
  }

  /** A substream stands before the `size` bytes that follow the first `n`. */
  lemma SubstreamRest(a: Tape, n: nat, size: nat)
    requires a.Valid() && n + size <= a.left
    ensures Tape(a.bytes, a.at + n, size).Valid() && |a.Rest()| == a.left
    ensures Tape(a.bytes, a.at + n, size).Rest() == a.Rest()[n..n + size]
  {
  }

  lemma RestLength(a: Tape)
    requires a.Valid()
    ensures |a.Rest()| == a.left
  {
  }

  lemma ClosedWithin(a: Tape, n: nat, size: nat, inner: Tape)
    requires a.Valid() && n + size <= a.left && Within(Tape(a.bytes, a.at + n, size), inner)
    ensures Within(a, Tape(a.bytes, inner.at + inner.left, a.left - n - size))
  {
  }

  /** Substream conservation: however much the inner reader took, closing a substream of `size` bytes
      leaves the parent exactly behind them, with position plus bytes left unchanged. */
  lemma SubstreamConservation(a: Tape, n: nat, size: nat, inner: Tape, m: nat)
    requires a.Valid() && n + size <= a.left && Took(Tape(a.bytes, a.at + n, size), inner, m)
    ensures var closed := Tape(a.bytes, inner.at + inner.left, a.left - n - size);
            Took(a, closed, n + size) && closed.at + closed.left == a.at + a.left
  {
  }
}
